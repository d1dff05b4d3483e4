/**
 Evidence selection under a token budget: candidates with content are ranked, the
 front of the ranking is taken, each item cut to what is left of the budget, and
 every other candidate is listed as discarded with a reason. The relevance score
 and the notion of a white-space character are parameters.
 */
module Evidence {
  import opened Ordering

  /** `rest` stands for file, kind, lines and metadata, which only the score reads. */
  datatype Candidate = Candidate(id: Id, source: Id, content: string, rest: nat)

  datatype Reason = OutsideBudget | BelowCutoff | EmptyOrUnranked

  datatype Discarded = Discarded(id: Id, reason: Reason)

  /** A text as cut: `Marked` stands for its characters followed by the truncation suffix. */
  datatype Text = Plain(chars: string) | Marked(chars: string)

  datatype Selected = Selected(candidate: Candidate, content: Text)

  datatype Pack = Pack(selected: seq<Selected>, discarded: seq<Discarded>, inputTokens: nat, outputTokens: nat)

  const SUFFIX := "\n...[truncated]"

  function MaxInt(a: int, b: int): int {
    if a < b then b else a
  }

  function MinInt(a: int, b: int): int {
    if b < a then b else a
  }

  function Render(text: Text): string {
    match text
    case Plain(chars) => chars
    case Marked(chars) => chars + SUFFIX
  }

  function EstimateTokens(length: nat): nat {
    MaxInt(1, length / 4)
  }

  /** The length of the rendered text. */
  function Length(text: Text): nat {
    match text
    case Plain(chars) => |chars|
    case Marked(chars) => |chars| + 15
  }

  lemma LengthIsRendered(text: Text)
    ensures |Render(text)| == Length(text)
  {
    assert |SUFFIX| == 15;
  }

  function TrimEnd(space: char -> bool, text: string): (r: string)
    ensures |r| <= |text|
  {
    if text != [] && space(text[|text| - 1]) then TrimEnd(space, text[..|text| - 1]) else text
  }

  predicate IsBlank(space: char -> bool, text: string) {
    TrimEnd(space, text) == []
  }

  /** Python's `text[:n]`. */
  function Prefix(text: string, n: nat): string {
    if n < |text| then text[..n] else text
  }

  function TruncateToBudget(space: char -> bool, text: string, remaining: int): Text {
    if EstimateTokens(|text|) <= remaining then Plain(text)
    else if remaining <= 8 then Plain(Prefix(text, MaxInt(0, remaining * 4)))
    else Marked(TrimEnd(space, Prefix(text, MaxInt(0, remaining * 4 - 16))))
  }

  lemma {:induction false} TrimEndIsPrefix(space: char -> bool, text: string)
    ensures TrimEnd(space, text) <= text
  {
    if text != [] && space(text[|text| - 1]) { TrimEndIsPrefix(space, text[..|text| - 1]); }
  }

  /** A text that fits is kept whole; any other is a front of it, marked if there is room for the suffix. */
  lemma TruncationKeepsFront(space: char -> bool, text: string, remaining: int)
    ensures TruncateToBudget(space, text, remaining).chars <= text
    ensures TruncateToBudget(space, text, remaining) == Plain(text) || EstimateTokens(|text|) > remaining
    ensures TruncateToBudget(space, text, remaining).Marked? <==> EstimateTokens(|text|) > remaining > 8
  {
    TrimEndIsPrefix(space, Prefix(text, MaxInt(0, remaining * 4 - 16)));
  }

  /** A truncated text fits the budget and is never more expensive than the text itself. */
  lemma TruncationFits(space: char -> bool, text: string, remaining: int)
    requires remaining > 0
    ensures EstimateTokens(Length(TruncateToBudget(space, text, remaining))) <= remaining
    ensures EstimateTokens(Length(TruncateToBudget(space, text, remaining))) <= EstimateTokens(|text|)
  {
  }

  /** A token is four characters, rounded down, but any text costs at least one. */
  lemma TokensAreFourCharacters(length: nat)
    ensures if length < 4 then EstimateTokens(length) == 1
            else 4 * EstimateTokens(length) <= length < 4 * EstimateTokens(length) + 4
  {
  }

  ghost predicate AllBlank(space: char -> bool, text: string) {
    forall i | 0 <= i < |text| :: space(text[i])
  }

  /** Trimming drops exactly the white space at the end. */
  lemma {:induction false} TrimEndDropsBlanks(space: char -> bool, text: string)
    ensures var r := TrimEnd(space, text);
      && r <= text && AllBlank(space, text[|r|..]) && (r != [] ==> !space(r[|r| - 1]))
  {
    if text != [] && space(text[|text| - 1]) {
      var front := text[..|text| - 1];
      TrimEndDropsBlanks(space, front);
      var r := TrimEnd(space, front);
      assert text[|r|..] == front[|r|..] + [text[|text| - 1]];
    }
  }

  /** A text has no content exactly if it is all white space. */
  lemma BlankIffAllSpace(space: char -> bool, text: string)
    ensures IsBlank(space, text) <==> AllBlank(space, text)
  {
    TrimEndDropsBlanks(space, text);
    var r := TrimEnd(space, text);
    if r == [] { assert text[0..] == text; } else { assert text[|r| - 1] == r[|r| - 1]; }
  }

  /**
   Where a text that does not fit is cut: after four characters per token left, less
   16 for the marker if more than 8 tokens are left, and before any white space there.
   */
  lemma TruncationCutsThere(space: char -> bool, text: string, remaining: int)
    requires EstimateTokens(|text|) > remaining >= 0
    ensures var cut := TruncateToBudget(space, text, remaining).chars;
      if remaining <= 8 then cut == (if |text| < 4 * remaining then text else text[..4 * remaining])
      else
        && |cut| <= 4 * remaining - 16 < |text| && cut == text[..|cut|]
        && AllBlank(space, text[|cut|..4 * remaining - 16])
        && (cut != [] ==> !space(cut[|cut| - 1]))
  {
    if remaining > 8 {
      var front := Prefix(text, remaining * 4 - 16);
      TrimEndDropsBlanks(space, front);
      assert front == text[..4 * remaining - 16];
    }
  }

  // ------------------------------------------------------------------- ranking

  /** The sort key (-score, id, source). */
  predicate RanksBefore(score: Candidate -> real, c: Candidate, d: Candidate) {
    || score(c) > score(d)
    || (score(c) == score(d) && (c.id.rank < d.id.rank || (c.id == d.id && c.source.rank < d.source.rank)))
  }

  function NotBlank(space: char -> bool, candidates: seq<Candidate>): seq<Candidate> {
    if candidates == [] then []
    else
      var rest := NotBlank(space, candidates[1..]);
      if IsBlank(space, candidates[0].content) then rest else [candidates[0]] + rest
  }

  /** Stable insertion: before the first entry that ranks after `c` or ties with it, as `c` came first. */
  function Place(score: Candidate -> real, c: Candidate, ranked: seq<Candidate>): seq<Candidate> {
    if ranked == [] || !RanksBefore(score, ranked[0], c) then [c] + ranked
    else [ranked[0]] + Place(score, c, ranked[1..])
  }

  function Rank(score: Candidate -> real, candidates: seq<Candidate>): seq<Candidate> {
    if candidates == [] then [] else Place(score, candidates[0], Rank(score, candidates[1..]))
  }

  /** The ranking keeps every candidate with content, since it is cut no shorter than the candidate list. */
  function Retrieve(space: char -> bool, score: Candidate -> real, candidates: seq<Candidate>, topK: int): seq<Candidate> {
    var ranked := Rank(score, NotBlank(space, candidates));
    var cut := MaxInt(topK, 0);
    if cut < |ranked| then ranked[..cut] else ranked
  }

  function Tokens(items: seq<Candidate>): nat {
    if items == [] then 0 else Tokens(items[..|items| - 1]) + EstimateTokens(|items[|items| - 1].content|)
  }

  ghost predicate InRankOrder(score: Candidate -> real, ranked: seq<Candidate>) {
    forall i, j | 0 <= i < j < |ranked| :: !RanksBefore(score, ranked[j], ranked[i])
  }

  lemma {:induction false} TokensSplit(a: seq<Candidate>, b: seq<Candidate>)
    ensures Tokens(a + b) == Tokens(a) + Tokens(b)
  {
    if b == [] {
      assert a + b == a;
    } else {
      assert (a + b)[..|a + b| - 1] == a + b[..|b| - 1];
      TokensSplit(a, b[..|b| - 1]);
    }
  }

  lemma {:induction false} PlaceKeeps(score: Candidate -> real, c: Candidate, ranked: seq<Candidate>)
    ensures Tokens(Place(score, c, ranked)) == Tokens([c] + ranked)
    ensures multiset(Place(score, c, ranked)) == multiset(ranked) + multiset{c}
  {
    if ranked != [] && RanksBefore(score, ranked[0], c) {
      PlaceKeeps(score, c, ranked[1..]);
      assert ranked == [ranked[0]] + ranked[1..];
      TokensSplit([ranked[0]], Place(score, c, ranked[1..]));
      TokensSplit([c], ranked[1..]);
      TokensSplit([c], ranked);
      TokensSplit([ranked[0]], ranked[1..]);
    }
  }

  lemma RanksBeforeIsTransitive(score: Candidate -> real, c: Candidate, d: Candidate, e: Candidate)
    requires !RanksBefore(score, d, c) && !RanksBefore(score, e, d)
    ensures !RanksBefore(score, e, c)
  {
  }

  lemma PrependOrders(score: Candidate -> real, c: Candidate, ranked: seq<Candidate>)
    requires InRankOrder(score, ranked)
    requires forall i | 0 <= i < |ranked| :: !RanksBefore(score, ranked[i], c)
    ensures InRankOrder(score, [c] + ranked)
  {
  }

  lemma {:induction false} PlaceOrders(score: Candidate -> real, c: Candidate, ranked: seq<Candidate>)
    requires InRankOrder(score, ranked)
    ensures InRankOrder(score, Place(score, c, ranked))
  {
    if ranked != [] && RanksBefore(score, ranked[0], c) {
      var first, placed := ranked[0], Place(score, c, ranked[1..]);
      assert ranked == [first] + ranked[1..];
      PlaceOrders(score, c, ranked[1..]);
      PlaceKeeps(score, c, ranked[1..]);
      forall j | 0 <= j < |placed| ensures !RanksBefore(score, placed[j], first) {
        assert placed[j] in multiset(placed);
        assert placed[j] == c || placed[j] in ranked[1..];
      }
      PrependOrders(score, first, placed);
    } else {
      forall i | 0 <= i < |ranked| ensures !RanksBefore(score, ranked[i], c) {
        if i > 0 { RanksBeforeIsTransitive(score, c, ranked[0], ranked[i]); }
      }
      PrependOrders(score, c, ranked);
    }
  }

  /** The ranking is a rearrangement of the candidates with content, best first. */
  lemma {:induction false} RankSorts(score: Candidate -> real, candidates: seq<Candidate>)
    ensures InRankOrder(score, Rank(score, candidates))
    ensures multiset(Rank(score, candidates)) == multiset(candidates)
    ensures Tokens(Rank(score, candidates)) == Tokens(candidates)
  {
    if candidates != [] {
      var rest := candidates[1..];
      assert candidates == [candidates[0]] + rest;
      RankSorts(score, rest);
      PlaceOrders(score, candidates[0], Rank(score, rest));
      PlaceKeeps(score, candidates[0], Rank(score, rest));
      TokensSplit([candidates[0]], rest);
      TokensSplit([candidates[0]], Rank(score, rest));
    }
  }

  lemma {:induction false} NotBlankShrinks(space: char -> bool, candidates: seq<Candidate>)
    ensures |NotBlank(space, candidates)| <= |candidates|
    ensures Tokens(NotBlank(space, candidates)) <= Tokens(candidates)
  {
    if candidates != [] {
      NotBlankShrinks(space, candidates[1..]);
      assert candidates == [candidates[0]] + candidates[1..];
      TokensSplit([candidates[0]], candidates[1..]);
      TokensSplit([candidates[0]], NotBlank(space, candidates[1..]));
    }
  }

  lemma {:induction false} NotBlankHas(space: char -> bool, candidates: seq<Candidate>, c: Candidate)
    ensures c in NotBlank(space, candidates) <==> c in candidates && !IsBlank(space, c.content)
  {
    if candidates != [] {
      NotBlankHas(space, candidates[1..], c);
      assert candidates == [candidates[0]] + candidates[1..];
    }
  }

  /** With a cut of at least the number of candidates, nothing that has content is lost. */
  lemma RetrieveIsComplete(space: char -> bool, score: Candidate -> real, candidates: seq<Candidate>, topK: int)
    ensures var ranked := Retrieve(space, score, candidates, MaxInt(topK, |candidates|));
      && InRankOrder(score, ranked)
      && Tokens(ranked) <= Tokens(candidates)
      && forall c :: c in ranked <==> c in candidates && !IsBlank(space, c.content)
  {
    var kept := NotBlank(space, candidates);
    NotBlankShrinks(space, candidates);
    RankSorts(score, kept);
    assert |multiset(Rank(score, kept))| == |Rank(score, kept)| && |multiset(kept)| == |kept|;
    forall c ensures c in Rank(score, kept) <==> c in candidates && !IsBlank(space, c.content) {
      NotBlankHas(space, candidates, c);
      assert c in Rank(score, kept) <==> c in multiset(Rank(score, kept));
      assert c in kept <==> c in multiset(kept);
    }
  }

  /** `c` is placed before `d`: a higher score, then the lower id, then the lower source. */
  lemma RanksBeforeInWords(score: Candidate -> real, c: Candidate, d: Candidate)
    ensures score(c) > score(d) ==> RanksBefore(score, c, d)
    ensures score(c) == score(d) && c.id.rank < d.id.rank ==> RanksBefore(score, c, d)
    ensures score(c) == score(d) && c.id == d.id && c.source.rank < d.source.rank ==> RanksBefore(score, c, d)
    ensures RanksBefore(score, c, d) ==> !RanksBefore(score, d, c)
  {
  }

  /** Best first: scores never rise along the ranking, equal scores are in id order, and equal ids in source order. */
  lemma RankingIsBestFirst(space: char -> bool, score: Candidate -> real, candidates: seq<Candidate>, topK: int, i: nat, j: nat)
    requires var ranked := Retrieve(space, score, candidates, MaxInt(topK, |candidates|)); i < j < |ranked|
    ensures var ranked := Retrieve(space, score, candidates, MaxInt(topK, |candidates|));
      var (c, d) := (ranked[i], ranked[j]);
      && score(c) >= score(d)
      && (score(c) == score(d) ==> c.id.rank <= d.id.rank)
      && (score(c) == score(d) && c.id == d.id ==> c.source.rank <= d.source.rank)
  {
    RetrieveIsComplete(space, score, candidates, topK);
    var ranked := Retrieve(space, score, candidates, MaxInt(topK, |candidates|));
    RanksBeforeInWords(score, ranked[j], ranked[i]);
  }

  /** The candidates that tie with `c`, in order. */
  ghost function TiesWith(score: Candidate -> real, c: Candidate, items: seq<Candidate>): seq<Candidate> {
    if items == [] then []
    else (if IsTie(score, c, items[0]) then [items[0]] else []) + TiesWith(score, c, items[1..])
  }

  ghost predicate IsTie(score: Candidate -> real, c: Candidate, d: Candidate) {
    score(c) == score(d) && c.id == d.id && c.source == d.source
  }

  lemma {:induction false} PlaceKeepsTies(score: Candidate -> real, c: Candidate, d: Candidate, ranked: seq<Candidate>)
    ensures TiesWith(score, c, Place(score, d, ranked)) == TiesWith(score, c, [d] + ranked)
  {
    assert ([d] + ranked)[1..] == ranked;
    if ranked != [] && RanksBefore(score, ranked[0], d) {
      PlaceKeepsTies(score, c, d, ranked[1..]);
      assert ([d] + ranked[1..])[1..] == ranked[1..];
      var placed := Place(score, d, ranked[1..]);
      assert ([ranked[0]] + placed)[1..] == placed;
    }
  }

  /** Python's sort is stable: candidates with equal keys stay in the order in which they were given. */
  lemma {:induction false} RankIsStable(score: Candidate -> real, c: Candidate, candidates: seq<Candidate>)
    ensures TiesWith(score, c, Rank(score, candidates)) == TiesWith(score, c, candidates)
  {
    if candidates != [] {
      var rest := candidates[1..];
      RankIsStable(score, c, rest);
      PlaceKeepsTies(score, c, candidates[0], Rank(score, rest));
      assert ([candidates[0]] + Rank(score, rest))[1..] == Rank(score, rest);
    }
  }

  // ------------------------------------------------------------------- selection

  /** The tokens that the selected texts take up as rendered. */
  function Used(items: seq<Selected>): nat {
    if items == [] then 0
    else Used(items[..|items| - 1]) + Cost(items[|items| - 1])
  }

  function Cost(item: Selected): nat {
    EstimateTokens(Length(item.content))
  }

  /** The truncation of the engine, as a function of text and remaining budget. */
  function Truncation(space: char -> bool): (string, int) -> Text {
    (text, remaining) => TruncateToBudget(space, text, remaining)
  }

  ghost predicate Fits(cut: (string, int) -> Text) {
    forall text, remaining | remaining > 0 ::
      EstimateTokens(Length(cut(text, remaining))) <= MinInt(remaining, EstimateTokens(|text|))
  }

  lemma TruncationAlwaysFits(space: char -> bool)
    ensures Fits(Truncation(space))
  {
    forall text, remaining | remaining > 0
      ensures EstimateTokens(Length(Truncation(space)(text, remaining))) <= MinInt(remaining, EstimateTokens(|text|))
    {
      TruncationFits(space, text, remaining);
    }
  }

  datatype Selection = Selection(items: seq<Selected>, used: nat)

  /** The first candidates of the ranking, each cut to what the ones before it left of the budget. */
  function Take(cut: (string, int) -> Text, ranked: seq<Candidate>, budget: int, n: nat): (r: Selection)
    requires n <= |ranked|
    ensures |r.items| == n
  {
    if n == 0 then Selection([], 0)
    else
      var before := Take(cut, ranked, budget, n - 1);
      var item := Selected(ranked[n - 1], cut(ranked[n - 1].content, budget - before.used));
      Selection(before.items + [item], before.used + Cost(item))
  }

  method SelectEvidence(cut: (string, int) -> Text, ranked: seq<Candidate>, budget: int, topK: int)
      returns (selected: seq<Selected>, used: nat)
    requires Fits(cut)
    ensures |selected| <= |ranked| && Selection(selected, used) == Take(cut, ranked, budget, |selected|)
    ensures (used == 0 || used <= budget) && (|selected| == 0 || |selected| <= topK)
    ensures |selected| == |ranked| || |selected| >= topK || used >= budget
  {
    selected, used := [], 0;
    while |selected| < |ranked| && |selected| < topK && used < budget
      invariant |selected| <= |ranked| && Selection(selected, used) == Take(cut, ranked, budget, |selected|)
      invariant (used == 0 || used <= budget) && (|selected| == 0 || |selected| <= topK)
    {
      var candidate := ranked[|selected|];
      var item := Selected(candidate, cut(candidate.content, budget - used));
      // The source skips an item that does not fit; after truncation every item does.
      assert used + Cost(item) <= budget;
      used := used + Cost(item);
      selected := selected + [item];
    }
  }

  lemma UsedPush(items: seq<Selected>, item: Selected)
    ensures Used(items + [item]) == Used(items) + Cost(item)
  {
    assert (items + [item])[..|items|] == items;
  }

  /** The running count is what the selected texts take up as rendered. */
  lemma {:induction false} TakeCounts(cut: (string, int) -> Text, ranked: seq<Candidate>, budget: int, n: nat)
    requires n <= |ranked|
    ensures Take(cut, ranked, budget, n).used == Used(Take(cut, ranked, budget, n).items)
  {
    if n > 0 {
      var before := Take(cut, ranked, budget, n - 1);
      TakeCounts(cut, ranked, budget, n - 1);
      UsedPush(before.items, Selected(ranked[n - 1], cut(ranked[n - 1].content, budget - before.used)));
    }
  }

  /** The selected items are the front of the ranking. */
  lemma {:induction false} TakeFollowsRanking(cut: (string, int) -> Text, ranked: seq<Candidate>, budget: int, n: nat, i: nat)
    requires i < n <= |ranked|
    ensures Take(cut, ranked, budget, n).items[i].candidate == ranked[i]
  {
    if i < n - 1 { TakeFollowsRanking(cut, ranked, budget, n - 1, i); }
  }

  /** Every selected item was chosen while some budget was left, so none outgrows its original. */
  lemma {:induction false} TakeShrinks(cut: (string, int) -> Text, ranked: seq<Candidate>, budget: int, n: nat)
    requires Fits(cut) && n <= |ranked| && (n == 0 || Take(cut, ranked, budget, n).used <= budget)
    ensures Take(cut, ranked, budget, n).used <= Tokens(ranked[..n])
  {
    if n > 0 {
      TakeShrinks(cut, ranked, budget, n - 1);
      assert ranked[..n][..n - 1] == ranked[..n - 1];
    }
  }

  // ------------------------------------------------------------------- what was left out

  function Ids(items: seq<Candidate>): set<Id> {
    set c | c in items :: c.id
  }

  function SelectedIds(items: seq<Selected>): set<Id> {
    set s | s in items :: s.candidate.id
  }

  function DiscardedIds(items: seq<Discarded>): set<Id> {
    set d | d in items :: d.id
  }

  /** The items whose id is not among `except`, in order, with one reason. */
  function Discard(items: seq<Candidate>, except: set<Id>, reason: Reason): seq<Discarded> {
    if items == [] then []
    else
      var front, last := Discard(items[..|items| - 1], except, reason), items[|items| - 1];
      if last.id in except then front else front + [Discarded(last.id, reason)]
  }

  lemma {:induction false} DiscardHas(items: seq<Candidate>, except: set<Id>, reason: Reason)
    ensures forall d :: d in Discard(items, except, reason) <==>
      d.reason == reason && d.id !in except && d.id in Ids(items)
  {
    if items != [] {
      var front, last := items[..|items| - 1], items[|items| - 1];
      DiscardHas(front, except, reason);
      assert items == front + [last];
      assert Ids(items) == Ids(front) + {last.id};
    }
  }

  method CollectDiscarded(items: seq<Candidate>, except: set<Id>, reason: Reason) returns (discarded: seq<Discarded>)
    ensures discarded == Discard(items, except, reason)
  {
    discarded := [];
    for i := 0 to |items|
      invariant discarded == Discard(items[..i], except, reason)
    {
      assert items[..i + 1][..i] == items[..i];
      if items[i].id !in except {
        discarded := discarded + [Discarded(items[i].id, reason)];
      }
    }
    assert items[..|items|] == items;
  }

  /** The reason says whether an item was ranked and, if so, whether the budget was spent. */
  ghost predicate Explains(discarded: seq<Discarded>, ranked: seq<Candidate>, spent: bool) {
    forall d | d in discarded :: d.reason ==
      if d.id !in Ids(ranked) then EmptyOrUnranked else if spent then OutsideBudget else BelowCutoff
  }

  /** Every candidate id ends up selected or discarded, never both, and nothing else does. */
  lemma SelectedOrDiscarded(candidates: seq<Candidate>, ranked: seq<Candidate>, selected: seq<Selected>, spent: bool)
    requires forall c | c in ranked :: c in candidates
    requires SelectedIds(selected) <= Ids(ranked)
    ensures var discarded := Discard(ranked, SelectedIds(selected), if spent then OutsideBudget else BelowCutoff)
        + Discard(candidates, Ids(ranked) + SelectedIds(selected), EmptyOrUnranked);
      && SelectedIds(selected) + DiscardedIds(discarded) == Ids(candidates)
      && SelectedIds(selected) !! DiscardedIds(discarded)
      && Explains(discarded, ranked, spent)
  {
    var reason := if spent then OutsideBudget else BelowCutoff;
    var first := Discard(ranked, SelectedIds(selected), reason);
    var second := Discard(candidates, Ids(ranked) + SelectedIds(selected), EmptyOrUnranked);
    DiscardHas(ranked, SelectedIds(selected), reason);
    DiscardHas(candidates, Ids(ranked) + SelectedIds(selected), EmptyOrUnranked);
    forall id ensures id in DiscardedIds(first + second) <==> id in Ids(candidates) && id !in SelectedIds(selected) {
      if id in Ids(candidates) && id !in SelectedIds(selected) {
        var d := if id in Ids(ranked) then Discarded(id, reason) else Discarded(id, EmptyOrUnranked);
        assert d in first || d in second;
        assert d in first + second;
      }
    }
  }

  /** The tokens of the selected texts as they are rendered. */
  function RenderedTokens(items: seq<Selected>): nat {
    if items == [] then 0
    else RenderedTokens(items[..|items| - 1]) + EstimateTokens(|Render(items[|items| - 1].content)|)
  }

  lemma {:induction false} UsedIsRendered(items: seq<Selected>)
    ensures Used(items) == RenderedTokens(items)
  {
    if items != [] {
      UsedIsRendered(items[..|items| - 1]);
      LengthIsRendered(items[|items| - 1].content);
    }
  }

  lemma SelectionFacts(cut: (string, int) -> Text, ranked: seq<Candidate>, budget: int, selected: seq<Selected>, used: nat)
    requires |selected| <= |ranked| && Selection(selected, used) == Take(cut, ranked, budget, |selected|)
    requires Fits(cut)
    requires used == 0 || used <= budget
    ensures used == Used(selected) <= Tokens(ranked) && SelectedIds(selected) <= Ids(ranked)
  {
    var n := |selected|;
    assert n > 0 ==> used > 0;
    TakeCounts(cut, ranked, budget, n);
    TakeShrinks(cut, ranked, budget, n);
    TokensOfPrefix(ranked, n);
    forall s | s in selected ensures s.candidate.id in Ids(ranked) {
      var i :| 0 <= i < |selected| && selected[i] == s;
      TakeFollowsRanking(cut, ranked, budget, n, i);
      assert ranked[i] in ranked;
    }
  }

  lemma TokensOfPrefix(items: seq<Candidate>, n: nat)
    requires n <= |items|
    ensures Tokens(items[..n]) <= Tokens(items)
  {
    TokensSplit(items[..n], items[n..]);
    assert items == items[..n] + items[n..];
  }

  method BuildEvidencePack(space: char -> bool, score: Candidate -> real, candidates: seq<Candidate>, budget: int, topK: int)
      returns (pack: Pack)
    ensures var ranked := Retrieve(space, score, candidates, MaxInt(topK, |candidates|));
      && |pack.selected| <= |ranked|
      && Selection(pack.selected, pack.outputTokens) == Take(Truncation(space), ranked, budget, |pack.selected|)
      && (|pack.selected| == |ranked| || |pack.selected| >= topK || pack.outputTokens >= budget)
    ensures pack.outputTokens == RenderedTokens(pack.selected) && pack.outputTokens <= MaxInt(0, budget)
    ensures |pack.selected| <= MaxInt(0, topK)
    ensures pack.outputTokens <= pack.inputTokens == Tokens(candidates)
    ensures SelectedIds(pack.selected) + DiscardedIds(pack.discarded) == Ids(candidates)
    ensures SelectedIds(pack.selected) !! DiscardedIds(pack.discarded)
    ensures Explains(pack.discarded, Retrieve(space, score, candidates, MaxInt(topK, |candidates|)), pack.outputTokens >= budget)
  {
    var ranked := Retrieve(space, score, candidates, MaxInt(topK, |candidates|));
    RetrieveIsComplete(space, score, candidates, topK);
    TruncationAlwaysFits(space);
    var selected, used := SelectEvidence(Truncation(space), ranked, budget, topK);
    var reason := if used >= budget then OutsideBudget else BelowCutoff;
    var below := CollectDiscarded(ranked, SelectedIds(selected), reason);
    var unranked := CollectDiscarded(candidates, Ids(ranked) + SelectedIds(selected), EmptyOrUnranked);
    SelectionFacts(Truncation(space), ranked, budget, selected, used);
    UsedIsRendered(selected);
    SelectedOrDiscarded(candidates, ranked, selected, used >= budget);
    pack := Pack(selected, below + unranked, Tokens(candidates), used);
  }
}
