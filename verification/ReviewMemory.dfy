/**
 Project memory: folding completed reviews into the table of security findings.
 A finding open against a covered file that the review no longer reports is
 resolved and becomes a historical fix.
 */
module ReviewMemory {
  import opened Wrappers
  import opened Ordering

  datatype Key = Key(job: Id, file: Id, title: Id)

  datatype Report = Report(severity: nat, reportedAt: int, resolved: bool)

  datatype FixKey = FixKey(reference: Id, file: Id)

  datatype Fix = Fix(title: Id, fixedAt: int, severity: nat)

  /** A finding as submitted; an empty file or title is `None`. */
  datatype RawFinding = RawFinding(file: Option<Id>, title: Option<Id>, severity: nat)

  datatype Item = Item(file: Id, title: Id, severity: nat)

  datatype Review = Review(job: Id, reference: Id, at: int, covered: seq<Id>, findings: seq<RawFinding>)

  /** Path normalization: rewriting separators, which twice is the same as once. */
  type Normalizer = Id -> Id

  ghost predicate IsNormalizer(norm: Normalizer) {
    forall p :: norm(norm(p)) == norm(p)
  }

  /** The findings that name a file and a title, with normalized files. */
  function Incoming(norm: Normalizer, findings: seq<RawFinding>): seq<Item> {
    if findings == [] then []
    else
      var front, last := Incoming(norm, findings[..|findings| - 1]), findings[|findings| - 1];
      if last.file.Some? && last.title.Some? then front + [Item(norm(last.file.value), last.title.value, last.severity)]
      else front
  }

  predicate Reports(norm: Normalizer, r: Review, file: Id, title: Id) {
    exists i | i in Incoming(norm, r.findings) :: i.file == file && i.title == title
  }

  predicate Covers(norm: Normalizer, r: Review, file: Id) {
    exists p | p in r.covered :: norm(p) == file
  }

  /** The review resolves this row. */
  predicate Resolves(norm: Normalizer, r: Review, k: Key, row: Report) {
    !row.resolved && Covers(norm, r, k.file) && !Reports(norm, r, k.file, k.title)
  }

  function Flip(norm: Normalizer, reports: map<Key, Report>, r: Review): map<Key, Report> {
    map k | k in reports ::
      if Resolves(norm, r, k, reports[k]) then reports[k].(resolved := true) else reports[k]
  }

  function Insert(reports: map<Key, Report>, job: Id, at: int, items: seq<Item>): map<Key, Report> {
    if items == [] then reports
    else
      var last := items[|items| - 1];
      Insert(reports, job, at, items[..|items| - 1])[Key(job, last.file, last.title) := Report(last.severity, at, false)]
  }

  /** The findings table after a review. */
  function Reviewed(norm: Normalizer, reports: map<Key, Report>, r: Review): map<Key, Report> {
    Insert(Flip(norm, reports, r), r.job, r.at, Incoming(norm, r.findings))
  }

  // ---------------------------------------------------------------- what stays open

  /** Some unresolved row has this file and title. */
  ghost predicate IsOpen(reports: map<Key, Report>, file: Id, title: Id) {
    exists k :: k in reports && !reports[k].resolved && k.file == file && k.title == title
  }

  lemma {:induction false} InsertOpens(reports: map<Key, Report>, job: Id, at: int, items: seq<Item>, file: Id, title: Id)
    ensures IsOpen(Insert(reports, job, at, items), file, title) <==>
      IsOpen(reports, file, title) || exists i :: i in items && i.file == file && i.title == title
  {
    if items != [] {
      var front, last := items[..|items| - 1], items[|items| - 1];
      InsertOpens(reports, job, at, front, file, title);
      assert items == front + [last];
      OpenAfterUpdate(Insert(reports, job, at, front), Key(job, last.file, last.title), Report(last.severity, at, false), file, title);
    }
  }

  lemma OpenAfterUpdate(reports: map<Key, Report>, key: Key, row: Report, file: Id, title: Id)
    requires !row.resolved
    ensures IsOpen(reports[key := row], file, title) <==> IsOpen(reports, file, title) || (key.file == file && key.title == title)
  {
    var updated := reports[key := row];
    if key.file == file && key.title == title { assert key in updated; }
    if k :| k in reports && !reports[k].resolved && k.file == file && k.title == title {
      assert k in updated && !updated[k].resolved;
    }
    if k :| k in updated && !updated[k].resolved && k.file == file && k.title == title {
      assert k != key ==> k in reports && !reports[k].resolved;
    }
  }

  lemma FlipCloses(norm: Normalizer, reports: map<Key, Report>, r: Review, file: Id, title: Id)
    ensures IsOpen(Flip(norm, reports, r), file, title) <==>
      IsOpen(reports, file, title) && (Covers(norm, r, file) ==> Reports(norm, r, file, title))
  {
    var flipped := Flip(norm, reports, r);
    if k :| k in reports && !reports[k].resolved && k.file == file && k.title == title {
      if Covers(norm, r, file) ==> Reports(norm, r, file, title) {
        assert k in flipped && !flipped[k].resolved;
      }
    }
    if k :| k in flipped && !flipped[k].resolved && k.file == file && k.title == title {
      assert k in reports && !reports[k].resolved && !Resolves(norm, r, k, reports[k]);
    }
  }

  /**
   One review: on a covered file exactly its reported titles are open afterwards;
   on any other file its reported titles are added and none is lost.
   */
  lemma ReviewSetsOpen(norm: Normalizer, reports: map<Key, Report>, r: Review, file: Id, title: Id)
    ensures IsOpen(Reviewed(norm, reports, r), file, title) <==>
      Reports(norm, r, file, title) || (!Covers(norm, r, file) && IsOpen(reports, file, title))
  {
    FlipCloses(norm, reports, r, file, title);
    InsertOpens(Flip(norm, reports, r), r.job, r.at, Incoming(norm, r.findings), file, title);
  }

  /** The findings table after the first `i` reviews. */
  ghost function History(norm: Normalizer, reviews: seq<Review>, i: nat): map<Key, Report>
    requires i <= |reviews|
  {
    if i == 0 then map[] else Reviewed(norm, History(norm, reviews, i - 1), reviews[i - 1])
  }

  /** Reported by review `k`, and no later one covered the file. */
  ghost predicate LastWord(norm: Normalizer, reviews: seq<Review>, i: nat, k: nat, file: Id, title: Id) {
    && k < i <= |reviews|
    && Reports(norm, reviews[k], file, title)
    && forall l | k < l < i :: !Covers(norm, reviews[l], file)
  }

  /**
   Over any sequence of reviews a title is open on a file exactly if some review
   reported it and no review after that one covered the file: the titles of the
   last covering review and of later reviews that did not cover it.
   */
  lemma {:induction false} OpenIffLastWord(norm: Normalizer, reviews: seq<Review>, i: nat, file: Id, title: Id)
    requires i <= |reviews|
    ensures IsOpen(History(norm, reviews, i), file, title) <==> exists k: nat :: LastWord(norm, reviews, i, k, file, title)
  {
    if i > 0 {
      OpenIffLastWord(norm, reviews, i - 1, file, title);
      ReviewSetsOpen(norm, History(norm, reviews, i - 1), reviews[i - 1], file, title);
      if Reports(norm, reviews[i - 1], file, title) {
        assert LastWord(norm, reviews, i, i - 1, file, title);
      }
      var j: nat := i - 1;
      if k: nat :| LastWord(norm, reviews, j, k, file, title) {
        if !Covers(norm, reviews[j], file) {
          assert LastWord(norm, reviews, i, k, file, title);
        }
      }
      if k: nat :| LastWord(norm, reviews, i, k, file, title) {
        if k < j {
          assert LastWord(norm, reviews, j, k, file, title);
        }
      }
    }
  }

  // ---------------------------------------------------------------- the database

  /** The finding names a file and a title, and is about this row of the review's own. */
  predicate IsAbout(norm: Normalizer, finding: RawFinding, file: Id, title: Id) {
    finding.file.Some? && finding.title.Some? && norm(finding.file.value) == file && finding.title.value == title
  }

  /** The severities that the findings give to a file and title, in order. */
  function Severities(norm: Normalizer, findings: seq<RawFinding>, file: Id, title: Id): (writes: seq<Option<nat>>)
    ensures |writes| == |findings|
    ensures forall i | 0 <= i < |findings| ::
      writes[i] == (if IsAbout(norm, findings[i], file, title) then Some(findings[i].severity) else None)
  {
    seq(|findings|, i requires 0 <= i < |findings| =>
      if IsAbout(norm, findings[i], file, title) then Some(findings[i].severity) else None)
  }

  /** A title is reported exactly if some finding has it on a path that normalizes to the file. */
  lemma {:induction false} ReportsIffFindingIsAbout(norm: Normalizer, findings: seq<RawFinding>, file: Id, title: Id)
    ensures (exists i | i in Incoming(norm, findings) :: i.file == file && i.title == title) <==>
      exists i | 0 <= i < |findings| :: IsAbout(norm, findings[i], file, title)
  {
    if findings != [] {
      var front, last := findings[..|findings| - 1], findings[|findings| - 1];
      ReportsIffFindingIsAbout(norm, front, file, title);
      forall i | 0 <= i < |front| ensures front[i] == findings[i] { }
      if IsAbout(norm, last, file, title) {
        assert Item(file, title, last.severity) in Incoming(norm, findings);
      }
    }
  }

  /** Findings without a file or title are dropped, all others count. */
  lemma {:induction false} IncomingCount(norm: Normalizer, findings: seq<RawFinding>)
    ensures |Incoming(norm, findings)| == |set i | 0 <= i < |findings| && findings[i].file.Some? && findings[i].title.Some?|
  {
    var named := set i | 0 <= i < |findings| && findings[i].file.Some? && findings[i].title.Some?;
    if findings == [] {
      assert named == {};
    } else {
      var n := |findings| - 1;
      var front := findings[..n];
      IncomingCount(norm, front);
      var before := set i | 0 <= i < |front| && front[i].file.Some? && front[i].title.Some?;
      if findings[n].file.Some? && findings[n].title.Some? {
        assert named == before + {n};
      } else {
        assert named == before;
      }
    }
  }

  /**
   What a review makes of each row. Its own rows get the last severity reported for
   them, its time, and are open; any other row keeps severity and time, and is
   resolved exactly if it was or the review covers its file without reporting it.
   */
  lemma RowAfterReview(norm: Normalizer, reports: map<Key, Report>, r: Review, k: Key)
    ensures var (after, severity) := (Reviewed(norm, reports, r), Last(Severities(norm, r.findings, k.file, k.title)));
      if k.job == r.job && severity.Some? then k in after && after[k] == Report(severity.value, r.at, false)
      else
        && (k in after <==> k in reports)
        && (k in reports ==>
            after[k] == reports[k].(resolved := reports[k].resolved || (Covers(norm, r, k.file) && severity.None?)))
  {
    InsertWrites(norm, Flip(norm, reports, r), r.job, r.at, r.findings, k);
    ReportsIffFindingIsAbout(norm, r.findings, k.file, k.title);
    LastIsLastWrite(Severities(norm, r.findings, k.file, k.title));
    var severities := Severities(norm, r.findings, k.file, k.title);
    if i :| 0 <= i < |r.findings| && IsAbout(norm, r.findings[i], k.file, k.title) {
      assert severities[i] in severities;
    }
  }

  lemma {:induction false} InsertWrites(norm: Normalizer, reports: map<Key, Report>, job: Id, at: int, findings: seq<RawFinding>, k: Key)
    ensures var (after, severity) := (Insert(reports, job, at, Incoming(norm, findings)), Last(Severities(norm, findings, k.file, k.title)));
      if k.job == job && severity.Some? then k in after && after[k] == Report(severity.value, at, false)
      else (k in after <==> k in reports) && (k in reports ==> after[k] == reports[k])
  {
    if findings != [] {
      var front, last := findings[..|findings| - 1], findings[|findings| - 1];
      InsertWrites(norm, reports, job, at, front, k);
      LastStep(Severities(norm, front, k.file, k.title), Severities(norm, findings, k.file, k.title));
      if last.file.Some? && last.title.Some? {
        var items := Incoming(norm, findings);
        assert items[..|items| - 1] == Incoming(norm, front);
      }
    }
  }

  /** The rows a review resolves. */
  ghost function ResolvedRows(norm: Normalizer, reports: map<Key, Report>, r: Review): set<Key> {
    set k | k in reports && Resolves(norm, r, k, reports[k])
  }

  /** Rows that went from open to resolved. */
  ghost function Flipped(before: map<Key, Report>, after: map<Key, Report>): set<Key> {
    set k | k in before && k in after && !before[k].resolved && after[k].resolved
  }

  lemma {:induction false} InsertKeeps(reports: map<Key, Report>, job: Id, at: int, items: seq<Item>, k: Key)
    ensures k in reports ==> k in Insert(reports, job, at, items)
    ensures k in Insert(reports, job, at, items) && Insert(reports, job, at, items)[k].resolved ==>
      k in reports && reports[k].resolved
    ensures k in reports && (forall i | i in items :: i.file != k.file || i.title != k.title) ==>
      Insert(reports, job, at, items)[k] == reports[k]
  {
    if items != [] {
      var front, last := items[..|items| - 1], items[|items| - 1];
      InsertKeeps(reports, job, at, front, k);
      assert last in items;
    }
  }

  /** The rows a review flips are those of covered files it no longer reports, and no others. */
  lemma FlippedAreResolved(norm: Normalizer, reports: map<Key, Report>, r: Review)
    ensures Flipped(reports, Reviewed(norm, reports, r)) == ResolvedRows(norm, reports, r)
  {
    forall k ensures k in Flipped(reports, Reviewed(norm, reports, r)) <==> k in ResolvedRows(norm, reports, r) {
      InsertKeeps(Flip(norm, reports, r), r.job, r.at, Incoming(norm, r.findings), k);
    }
  }

  /** A resolved row is remembered as a fix of its file; one fix is kept per file and reference. */
  ghost predicate FixesRecorded(before: map<FixKey, Fix>, after: map<FixKey, Fix>, reports: map<Key, Report>,
                                rows: set<Key>, reference: Id, at: int)
    requires rows <= reports.Keys
  {
    forall f: FixKey ::
      if f.reference == reference && (exists k :: k in rows && k.file == f.file)
      then f in after && exists k :: k in rows && k.file == f.file && after[f] == Fix(k.title, at, reports[k].severity)
      else (f in after <==> f in before) && (f in before ==> after[f] == before[f])
  }

  /** The fix of this row is the one remembered for its file under this reference. */
  ghost predicate IsRemembered(fixes: map<FixKey, Fix>, reports: map<Key, Report>, k: Key, reference: Id, at: int)
    requires k in reports
  {
    var f := FixKey(reference, k.file);
    f in fixes && fixes[f] == Fix(k.title, at, reports[k].severity)
  }

  /** No file has two of these rows that differ in title or severity. */
  predicate AgreeByFile(reports: map<Key, Report>, rows: set<Key>)
    requires rows <= reports.Keys
  {
    forall k, l | k in rows && l in rows && k.file == l.file :: k.title == l.title && reports[k].severity == reports[l].severity
  }

  /**
   Every finding that a review resolves becomes a historical fix exactly if, of
   the rows it resolves, those of one file agree in title and severity.
   */
  lemma AllRememberedIff(norm: Normalizer, reports: map<Key, Report>, r: Review, before: map<FixKey, Fix>, after: map<FixKey, Fix>)
    requires FixesRecorded(before, after, reports, ResolvedRows(norm, reports, r), r.reference, r.at)
    ensures (forall k | k in ResolvedRows(norm, reports, r) :: IsRemembered(after, reports, k, r.reference, r.at)) <==>
      AgreeByFile(reports, ResolvedRows(norm, reports, r))
  {
    var rows := ResolvedRows(norm, reports, r);
    forall k | k in rows
      ensures exists l :: l in rows && l.file == k.file && IsRemembered(after, reports, l, r.reference, r.at)
    {
      var f := FixKey(r.reference, k.file);
      var l :| l in rows && l.file == k.file && after[f] == Fix(l.title, r.at, reports[l].severity);
      assert IsRemembered(after, reports, l, r.reference, r.at);
    }
  }

  lemma InsertTwo(reports: map<Key, Report>, job: Id, at: int, x: Item, y: Item)
    ensures Insert(reports, job, at, [x, y]) ==
      reports[Key(job, x.file, x.title) := Report(x.severity, at, false)][Key(job, y.file, y.title) := Report(y.severity, at, false)]
  {
    assert [x, y][..1] == [x];
    assert Insert(reports, job, at, [x]) == reports[Key(job, x.file, x.title) := Report(x.severity, at, false)];
  }

  lemma IncomingTwo(norm: Normalizer, file: Id, s: Id, t: Id)
    ensures Incoming(norm, [RawFinding(Some(file), Some(s), 0), RawFinding(Some(file), Some(t), 0)]) ==
      [Item(norm(file), s, 0), Item(norm(file), t, 0)]
  {
    var a, b := RawFinding(Some(file), Some(s), 0), RawFinding(Some(file), Some(t), 0);
    assert [a, b][..1] == [a];
    assert Incoming(norm, [a]) == [Item(norm(file), s, 0)];
  }

  /** One review reports two titles on a file; the next covers the file and reports nothing. */
  lemma TwoFixesShareOneKey(before: map<FixKey, Fix>, after: map<FixKey, Fix>) returns (first: Review, second: Review)
    ensures var norm: Normalizer := p => p;
      var reports := Reviewed(norm, map[], first);
      && |ResolvedRows(norm, reports, second)| == 2
      && (FixesRecorded(before, after, reports, ResolvedRows(norm, reports, second), second.reference, second.at) ==>
        exists k :: k in ResolvedRows(norm, reports, second) && !IsRemembered(after, reports, k, second.reference, second.at))
  {
    var norm: Normalizer := p => p;
    var a, b := RawFinding(Some(Id(1)), Some(Id(2)), 0), RawFinding(Some(Id(1)), Some(Id(3)), 0);
    first := Review(Id(4), Id(5), 0, [Id(1)], [a, b]);
    second := Review(Id(6), Id(7), 1, [Id(1)], []);
    var reports := Reviewed(norm, map[], first);
    var k, l := Key(Id(4), Id(1), Id(2)), Key(Id(4), Id(1), Id(3));
    IncomingTwo(norm, Id(1), Id(2), Id(3));
    assert Flip(norm, map[], first) == map[];
    InsertTwo(map[], first.job, first.at, Item(Id(1), Id(2), 0), Item(Id(1), Id(3), 0));
    assert ResolvedRows(norm, reports, second) == {k, l};
    assert k != l;
    if FixesRecorded(before, after, reports, ResolvedRows(norm, reports, second), second.reference, second.at) {
      AllRememberedIff(norm, reports, second, before, after);
    }
  }

  class Memory {
    var reports: map<Key, Report>
    var fixes: map<FixKey, Fix>

    constructor ()
      ensures reports == map[] && fixes == map[]
    {
      reports, fixes := map[], map[];
    }

    /** The open rows recorded against any of the files. */
    method UnresolvedFindingsFor(norm: Normalizer, files: seq<Id>) returns (rows: set<Key>)
      ensures rows == set k | k in reports && !reports[k].resolved && exists p | p in files :: norm(p) == k.file
    {
      if files == [] { return {}; }
      var paths := set p | p in files :: norm(p);
      rows := set k | k in reports && !reports[k].resolved && k.file in paths;
    }

    /** Folds one completed review into memory and counts what it recorded and resolved. */
    method RecordReview(norm: Normalizer, r: Review) returns (recorded: nat, resolved: nat)
      requires IsNormalizer(norm)
      modifies this
      ensures reports == Reviewed(norm, old(reports), r)
      ensures recorded == |Incoming(norm, r.findings)|
      ensures resolved == |Flipped(old(reports), reports)|
      ensures ResolvedRows(norm, old(reports), r) <= old(reports).Keys
      ensures FixesRecorded(old(fixes), fixes, old(reports), ResolvedRows(norm, old(reports), r), r.reference, r.at)
    {
      var covered := seq(|r.covered|, i requires 0 <= i < |r.covered| => norm(r.covered[i]));
      var incoming := Incoming(norm, r.findings);
      var rows := UnresolvedFindingsFor(norm, covered);
      CoveredTwice(norm, r, covered);
      var gone := set k | k in rows && !(exists i | i in incoming :: i.file == k.file && i.title == k.title);
      assert gone == ResolvedRows(norm, reports, r);
      FlippedAreResolved(norm, reports, r);
      reports, fixes, resolved := ResolveRows(reports, fixes, gone, r.reference, r.at);
      assert reports == Flip(norm, old(reports), r);
      reports := InsertItems(reports, r.job, r.at, incoming);
      recorded := |incoming|;
    }
  }

  lemma CoveredTwice(norm: Normalizer, r: Review, covered: seq<Id>)
    requires IsNormalizer(norm) && |covered| == |r.covered|
    requires forall i | 0 <= i < |covered| :: covered[i] == norm(r.covered[i])
    ensures forall file :: (exists p | p in covered :: norm(p) == file) <==> Covers(norm, r, file)
  {
    forall file ensures (exists p | p in covered :: norm(p) == file) <==> Covers(norm, r, file) {
      if p :| p in covered && norm(p) == file {
        var i :| 0 <= i < |covered| && covered[i] == p;
        assert r.covered[i] in r.covered;
      }
      if p :| p in r.covered && norm(p) == file {
        var i :| 0 <= i < |r.covered| && r.covered[i] == p;
        assert covered[i] in covered;
      }
    }
  }

  /** The loop over open rows that are no longer reported; rows may come in any order. */
  method ResolveRows(reports: map<Key, Report>, fixes: map<FixKey, Fix>, rows: set<Key>, reference: Id, at: int)
    returns (reports': map<Key, Report>, fixes': map<FixKey, Fix>, resolved: nat)
    requires rows <= reports.Keys
    ensures reports' == map k | k in reports :: if k in rows then reports[k].(resolved := true) else reports[k]
    ensures FixesRecorded(fixes, fixes', reports, rows, reference, at)
    ensures resolved == |rows|
  {
    reports', fixes', resolved := reports, fixes, 0;
    var rest := rows;
    ghost var done: set<Key> := {};
    while rest != {}
      invariant rest !! done && rest + done == rows && resolved == |done|
      invariant reports'.Keys == reports.Keys
      invariant forall k | k in reports :: reports'[k] == if k in done then reports[k].(resolved := true) else reports[k]
      invariant FixesRecorded(fixes, fixes', reports, done, reference, at)
      decreases |rest|
    {
      var k :| k in rest;
      FixOneMore(fixes, fixes', reports, done, k, reference, at);
      reports' := reports'[k := reports'[k].(resolved := true)];
      fixes' := fixes'[FixKey(reference, k.file) := Fix(k.title, at, reports[k].severity)];
      rest, done := rest - {k}, done + {k};
      resolved := resolved + 1;
    }
  }

  lemma FixOneMore(before: map<FixKey, Fix>, after: map<FixKey, Fix>, reports: map<Key, Report>, done: set<Key>, k: Key,
                   reference: Id, at: int)
    requires done <= reports.Keys && k in reports && FixesRecorded(before, after, reports, done, reference, at)
    ensures FixesRecorded(before, after[FixKey(reference, k.file) := Fix(k.title, at, reports[k].severity)],
                          reports, done + {k}, reference, at)
  {
    var more := after[FixKey(reference, k.file) := Fix(k.title, at, reports[k].severity)];
    forall f: FixKey ensures
      if f.reference == reference && (exists l :: l in done + {k} && l.file == f.file)
      then f in more && exists l :: l in done + {k} && l.file == f.file && more[f] == Fix(l.title, at, reports[l].severity)
      else (f in more <==> f in before) && (f in before ==> more[f] == before[f])
    {
      if f == FixKey(reference, k.file) {
        assert k in done + {k};
      } else if f.reference == reference && exists l :: l in done && l.file == f.file {
        var l :| l in done && l.file == f.file && after[f] == Fix(l.title, at, reports[l].severity);
        assert l in done + {k};
      }
    }
  }

  method InsertItems(reports: map<Key, Report>, job: Id, at: int, items: seq<Item>) returns (reports': map<Key, Report>)
    ensures reports' == Insert(reports, job, at, items)
  {
    reports' := reports;
    for i := 0 to |items|
      invariant reports' == Insert(reports, job, at, items[..i])
    {
      assert items[..i + 1][..i] == items[..i];
      reports' := reports'[Key(job, items[i].file, items[i].title) := Report(items[i].severity, at, false)];
    }
    assert items[..|items|] == items;
  }
}
