/** Provider answers put back in request order, and the reranking of a hit pool. */
module Rerank {

  datatype Result<T> = Ok(value: T) | Err(error: AnswerError)

  datatype AnswerError = WrongCount(got: int, want: int) | UnknownInput(input: int) | AnsweredTwice(input: int)

  // --------------------------------------------------- answers in request order

  ghost predicate Answered<T>(items: seq<T>, index: T -> int, i: int) {
    exists k :: 0 <= k < |items| && index(items[k]) == i
  }

  /** As many answers as inputs, and every input answered: so each exactly once. */
  ghost predicate AnswersEach<T>(items: seq<T>, inputs: nat, index: T -> int) {
    |items| == inputs && forall i | 0 <= i < inputs :: Answered(items, index, i)
  }

  /** Slot i holds the item that answers input i. */
  ghost predicate InOrder<T>(items: seq<T>, index: T -> int, ordered: seq<T>) {
    && (forall i | 0 <= i < |ordered| :: index(ordered[i]) == i && ordered[i] in items)
    && (forall k | 0 <= k < |items| :: 0 <= index(items[k]) < |ordered| && ordered[index(items[k])] == items[k])
  }

  function Below(n: nat): (s: set<int>)
    ensures |s| == n && forall i :: i in s <==> 0 <= i < n
  {
    if n == 0 then {} else Below(n - 1) + {n - 1}
  }

  function Indices<T>(items: seq<T>, index: T -> int): set<int> {
    set k | 0 <= k < |items| :: index(items[k])
  }

  lemma {:induction false} DistinctCount<T>(items: seq<T>, index: T -> int)
    requires forall j, k | 0 <= j < k < |items| :: index(items[j]) != index(items[k])
    ensures |Indices(items, index)| == |items|
  {
    if items != [] {
      var front := items[..|items| - 1];
      var last := index(items[|items| - 1]);
      DistinctCount(front, index);
      assert Indices(items, index) == Indices(front, index) + {last};
      assert last !in Indices(front, index);
    }
  }

  lemma SubsetOfSameSize(a: set<int>, b: set<int>)
    requires a <= b && |a| == |b|
    ensures a == b
  {
    assert b == a + (b - a);
  }

  /** Pigeonhole: n answers that name distinct inputs below n leave none unanswered. */
  lemma DistinctAnswersCover<T>(items: seq<T>, index: T -> int)
    requires forall j, k | 0 <= j < k < |items| :: index(items[j]) != index(items[k])
    requires forall k | 0 <= k < |items| :: 0 <= index(items[k]) < |items|
    ensures AnswersEach(items, |items|, index)
  {
    DistinctCount(items, index);
    SubsetOfSameSize(Indices(items, index), Below(|items|));
    forall i | 0 <= i < |items| ensures Answered(items, index, i) {
      assert i in Below(|items|);
    }
  }

  lemma {:induction false} CoverIsDistinct<T>(items: seq<T>, index: T -> int, j: int, k: int)
    requires AnswersEach(items, |items|, index) && 0 <= j < k < |items|
    ensures index(items[j]) != index(items[k])
  {
    if index(items[j]) == index(items[k]) {
      var rest := items[..k] + items[k + 1..];
      forall i | i in Below(|items|) ensures i in Indices(rest, index) {
        assert Answered(items, index, i);
        var m :| 0 <= m < |items| && index(items[m]) == i;
        var m' := if m == k then j else m;
        assert items[m'] == rest[if m' < k then m' else m' - 1];
      }
      FewIndices(rest, index);
      SubsetCount(Below(|items|), Indices(rest, index));
    }
  }

  lemma SubsetCount(a: set<int>, b: set<int>)
    requires a <= b
    ensures |a| <= |b|
  {
    assert b == a + (b - a);
  }

  lemma {:induction false} FewIndices<T>(items: seq<T>, index: T -> int)
    ensures |Indices(items, index)| <= |items|
  {
    if items != [] {
      var front := items[..|items| - 1];
      FewIndices(front, index);
      assert Indices(items, index) == Indices(front, index) + {index(items[|items| - 1])};
    }
  }

  /** byIndex: succeeds exactly when each input is answered once, and then every
      item stands in its own slot. */
  method ByIndex<T(0)>(items: seq<T>, inputs: nat, index: T -> int) returns (r: Result<seq<T>>)
    ensures r.Ok? <==> AnswersEach(items, inputs, index)
    ensures r.Ok? ==> |r.value| == inputs && InOrder(items, index, r.value)
    ensures r.Err? && r.error.WrongCount? <==> |items| != inputs
    ensures r.Err? && r.error.UnknownInput? ==>
      Answered(items, index, r.error.input) && !(0 <= r.error.input < inputs)
    ensures r.Err? && r.error.AnsweredTwice? ==> AnsweredTwiceFor(items, index, r.error.input)
  {
    if |items| != inputs {
      return Err(WrongCount(|items|, inputs));
    }
    var ordered := new T[inputs];
    var seen := new bool[inputs](_ => false);
    ghost var owner := seq(inputs, _ => 0);
    for n := 0 to |items|
      invariant forall k | 0 <= k < n :: 0 <= index(items[k]) < inputs
      invariant forall k | 0 <= k < n :: seen[index(items[k])] && ordered[index(items[k])] == items[k]
      invariant |owner| == inputs
      invariant forall i | 0 <= i < inputs && seen[i] :: 0 <= owner[i] < n && index(items[owner[i]]) == i
      invariant forall k | 0 <= k < n :: owner[index(items[k])] == k
    {
      var i := index(items[n]);
      if i < 0 || i >= inputs {
        CoveredInRange(items, inputs, index, n);
        return Err(UnknownInput(i));
      }
      if seen[i] {
        TwiceIsUncovered(items, inputs, index, owner[i], n);
        return Err(AnsweredTwice(i));
      }
      seen[i] := true;
      ordered[i] := items[n];
      owner := owner[i := n];
    }
    assert forall j, k | 0 <= j < k < |items| :: index(items[j]) != index(items[k]) by {
      assert forall j, k | 0 <= j < k < |items| :: owner[index(items[j])] == j && owner[index(items[k])] == k;
    }
    DistinctAnswersCover(items, index);
    forall i | 0 <= i < inputs ensures index(ordered[i]) == i && ordered[i] in items {
      assert Answered(items, index, i);
    }
    r := Ok(ordered[..]);
  }

  predicate AnsweredTwiceFor<T>(items: seq<T>, index: T -> int, i: int) {
    exists j, k | 0 <= j < k < |items| :: index(items[j]) == i && index(items[k]) == i
  }

  lemma TwiceIsUncovered<T>(items: seq<T>, inputs: nat, index: T -> int, j: nat, n: nat)
    requires j < n < |items| == inputs && index(items[j]) == index(items[n])
    ensures !AnswersEach(items, inputs, index) && AnsweredTwiceFor(items, index, index(items[n]))
  {
    if AnswersEach(items, inputs, index) {
      CoverIsDistinct(items, index, j, n);
    }
  }

  lemma CoveredInRange<T>(items: seq<T>, inputs: nat, index: T -> int, n: nat)
    requires n < |items| == inputs
    ensures AnswersEach(items, inputs, index) ==> 0 <= index(items[n]) < inputs
  {
    if AnswersEach(items, inputs, index) {
      forall i | i in Below(inputs) ensures i in Indices(items, index) {
        assert Answered(items, index, i);
      }
      FewIndices(items, index);
      SubsetCount(Below(inputs), Indices(items, index));
      SubsetOfSameSize(Below(inputs), Indices(items, index));
      assert index(items[n]) in Indices(items, index);
    }
  }

  /** The order a provider lists its answers in does not show in the result. */
  lemma OrderOfAnswersIsLost<T>(items: seq<T>, items': seq<T>, index: T -> int, ordered: seq<T>, ordered': seq<T>)
    requires multiset(items) == multiset(items')
    requires InOrder(items, index, ordered) && InOrder(items', index, ordered')
    requires |ordered| == |items| && |ordered'| == |items'|
    ensures ordered == ordered'
  {
    assert |items| == |multiset(items)| && |items'| == |multiset(items')|;
    forall i | 0 <= i < |ordered| ensures ordered[i] == ordered'[i] {
      assert ordered[i] in multiset(items');
      var k :| 0 <= k < |items'| && items'[k] == ordered[i];
    }
  }

  datatype Scored = Scored(index: int, score: real)

  /** scoresInOrder. */
  method ScoresInOrder(results: seq<Scored>, documents: nat) returns (r: Result<seq<real>>)
    ensures r.Ok? <==> AnswersEach(results, documents, (s: Scored) => s.index)
    ensures r.Ok? ==> |r.value| == documents
    ensures r.Ok? ==> forall k | 0 <= k < |results| ::
      0 <= results[k].index < documents && r.value[results[k].index] == results[k].score
  {
    var ordered := ByIndex(results, documents, (s: Scored) => s.index);
    if ordered.Err? {
      return Err(ordered.error);
    }
    var scores := new real[documents];
    for i := 0 to documents
      invariant forall j | 0 <= j < i :: scores[j] == ordered.value[j].score
    {
      scores[i] := ordered.value[i].score;
    }
    forall k | 0 <= k < |results|
      ensures 0 <= results[k].index < documents && scores[..][results[k].index] == results[k].score
    {
      assert ((s: Scored) => s.index)(results[k]) == results[k].index;
    }
    r := Ok(scores[..]);
  }

  // ---------------------------------------------------------------- reranking

  datatype Hit = Hit(article: int, chunk: int, score: real)

  predicate Descending(hits: seq<Hit>) {
    forall i, j | 0 <= i < j < |hits| :: hits[i].score >= hits[j].score
  }

  /** The hits of one score, in order: what stability keeps. */
  function WithScore(hits: seq<Hit>, score: real): seq<Hit> {
    if hits == [] then []
    else (if hits[0].score == score then [hits[0]] else []) + WithScore(hits[1..], score)
  }

  /** A hit goes behind every hit that scores at least as much. */
  function Insert(sorted: seq<Hit>, hit: Hit): seq<Hit> {
    if sorted == [] || sorted[0].score < hit.score then [hit] + sorted
    else [sorted[0]] + Insert(sorted[1..], hit)
  }

  function StableSort(hits: seq<Hit>): seq<Hit> {
    if hits == [] then [] else Insert(StableSort(hits[..|hits| - 1]), hits[|hits| - 1])
  }

  lemma {:induction false} WithScoreAppend(a: seq<Hit>, b: seq<Hit>, score: real)
    ensures WithScore(a + b, score) == WithScore(a, score) + WithScore(b, score)
  {
    if a == [] {
      assert a + b == b;
    } else {
      assert (a + b)[1..] == a[1..] + b;
      WithScoreAppend(a[1..], b, score);
    }
  }

  lemma {:induction false} InsertKeepsHits(sorted: seq<Hit>, hit: Hit)
    ensures multiset(Insert(sorted, hit)) == multiset(sorted) + multiset{hit}
  {
    if sorted == [] || sorted[0].score < hit.score {
    } else {
      InsertKeepsHits(sorted[1..], hit);
      assert sorted == [sorted[0]] + sorted[1..];
    }
  }

  lemma {:induction false} InsertKeepsOrder(sorted: seq<Hit>, hit: Hit)
    requires Descending(sorted)
    ensures Descending(Insert(sorted, hit))
  {
    if sorted == [] || sorted[0].score < hit.score {
    } else {
      var rest := Insert(sorted[1..], hit);
      InsertKeepsOrder(sorted[1..], hit);
      InsertKeepsHits(sorted[1..], hit);
      forall j | 0 <= j < |rest| ensures sorted[0].score >= rest[j].score {
        assert rest[j] in multiset(rest);
        assert rest[j] == hit || rest[j] in sorted[1..];
      }
    }
  }

  lemma {:induction false} InsertKeepsScores(sorted: seq<Hit>, hit: Hit, score: real)
    requires Descending(sorted)
    ensures WithScore(Insert(sorted, hit), score) == WithScore(sorted, score) + WithScore([hit], score)
  {
    if sorted == [] || sorted[0].score < hit.score {
      assert ([hit] + sorted)[1..] == sorted;
      if hit.score == score { NoneBelow(sorted, score); }
    } else {
      InsertKeepsScores(sorted[1..], hit, score);
      assert Insert(sorted, hit)[1..] == Insert(sorted[1..], hit);
    }
  }

  lemma {:induction false} NoneBelow(hits: seq<Hit>, score: real)
    requires forall i | 0 <= i < |hits| :: hits[i].score < score
    ensures WithScore(hits, score) == []
  {
    if hits != [] {
      NoneBelow(hits[1..], score);
    }
  }

  lemma {:induction false} SortKeepsHits(hits: seq<Hit>)
    ensures Descending(StableSort(hits)) && multiset(StableSort(hits)) == multiset(hits)
  {
    if hits != [] {
      var front := hits[..|hits| - 1];
      SortKeepsHits(front);
      InsertKeepsOrder(StableSort(front), hits[|hits| - 1]);
      InsertKeepsHits(StableSort(front), hits[|hits| - 1]);
      assert hits == front + [hits[|hits| - 1]];
    }
  }

  /** Hits of equal score stay in the order they came. */
  lemma {:induction false} SortIsStable(hits: seq<Hit>, score: real)
    ensures WithScore(StableSort(hits), score) == WithScore(hits, score)
  {
    if hits != [] {
      var front := hits[..|hits| - 1];
      SortIsStable(front, score);
      SortKeepsHits(front);
      InsertKeepsScores(StableSort(front), hits[|hits| - 1], score);
      assert hits == front + [hits[|hits| - 1]];
      WithScoreAppend(front, [hits[|hits| - 1]], score);
    }
  }

  lemma HeadCounts(hits: seq<Hit>)
    requires hits != []
    ensures WithScore(hits, hits[0].score) != []
  {
  }

  /** No other arrangement is stable and descending: whatever algorithm sorts, this
      is its result. */
  lemma {:induction false} StableSortIsUnique(a: seq<Hit>, b: seq<Hit>)
    requires Descending(a) && Descending(b) && forall score :: WithScore(a, score) == WithScore(b, score)
    ensures a == b
  {
    if a == [] {
      if b != [] { HeadCounts(b); }
    } else if b == [] {
      HeadCounts(a);
    } else {
      if a[0].score > b[0].score { NoneBelow(b, a[0].score); }
      if a[0].score < b[0].score { NoneBelow(a, b[0].score); }
      assert WithScore(a, a[0].score)[0] == a[0] && WithScore(b, a[0].score)[0] == b[0];
      forall score ensures WithScore(a[1..], score) == WithScore(b[1..], score) {
        var skip := if a[0].score == score then 1 else 0;
        assert WithScore(a[1..], score) == WithScore(a, score)[skip..];
        assert WithScore(b[1..], score) == WithScore(b, score)[skip..];
      }
      StableSortIsUnique(a[1..], b[1..]);
    }
  }

  function Rescored(hits: seq<Hit>, scores: seq<real>): seq<Hit>
    requires |scores| == |hits|
  {
    seq(|hits|, i requires 0 <= i < |hits| => hits[i].(score := scores[i]))
  }

  /** orderByScore: copies carrying the new scores, sorted stably. */
  method OrderByScore(hits: seq<Hit>, scores: seq<real>) returns (ordered: seq<Hit>)
    requires |scores| == |hits|
    ensures Descending(ordered) && multiset(ordered) == multiset(Rescored(hits, scores))
    ensures forall score :: WithScore(ordered, score) == WithScore(Rescored(hits, scores), score)
  {
    ordered := [];
    var copies := [];
    for i := 0 to |hits|
      invariant copies == Rescored(hits, scores)[..i]
    {
      copies := copies + [hits[i].(score := scores[i])];
    }
    for i := 0 to |copies|
      invariant ordered == StableSort(copies[..i])
    {
      assert copies[..i + 1][..i] == copies[..i];
      ordered := Insert(ordered, copies[i]);
    }
    assert copies[..|copies|] == copies && copies == Rescored(hits, scores);
    forall score ensures WithScore(ordered, score) == WithScore(copies, score) {
      SortIsStable(copies, score);
    }
    SortKeepsHits(copies);
  }

  /** The first hit of its article. */
  predicate IsLead(hits: seq<Hit>, i: int)
    requires 0 <= i < |hits|
  {
    forall j | 0 <= j < i :: hits[j].article != hits[i].article
  }

  /** The leads of the articles, in order: the reference for leadingHits. */
  function Leads(hits: seq<Hit>): seq<Hit> {
    if hits == [] then []
    else
      var front := Leads(hits[..|hits| - 1]);
      if IsLead(hits, |hits| - 1) then front + [hits[|hits| - 1]] else front
  }

  lemma {:induction false} LeadsAreLeads(hits: seq<Hit>, k: nat)
    requires k < |Leads(hits)|
    ensures exists i :: 0 <= i < |hits| && hits[i] == Leads(hits)[k] && IsLead(hits, i)
  {
    var front := hits[..|hits| - 1];
    if k < |Leads(front)| {
      LeadsAreLeads(front, k);
      var i :| 0 <= i < |front| && front[i] == Leads(front)[k] && IsLead(front, i);
      assert hits[i] == front[i] && IsLead(hits, i);
    } else {
      assert hits[|hits| - 1] == Leads(hits)[k];
    }
  }

  /** Every article of the pool has a lead. */
  lemma {:induction false} EveryArticleLeads(hits: seq<Hit>, i: nat)
    requires i < |hits|
    ensures exists k :: 0 <= k < |Leads(hits)| && Leads(hits)[k].article == hits[i].article
  {
    var n := |hits| - 1;
    var front := hits[..n];
    if i < n {
      EveryArticleLeads(front, i);
      var k :| 0 <= k < |Leads(front)| && Leads(front)[k].article == front[i].article;
      assert Leads(hits)[k] == Leads(front)[k];
    } else if IsLead(hits, n) {
      assert Leads(hits)[|Leads(front)|] == hits[n];
    } else {
      var j :| 0 <= j < n && hits[j].article == hits[n].article;
      EveryArticleLeads(front, j);
      var k :| 0 <= k < |Leads(front)| && Leads(front)[k].article == front[j].article;
      assert Leads(hits)[k] == Leads(front)[k];
    }
  }

  /** An article leads at most once, and the leads stand in the order of the hits. */
  lemma {:induction false} LeadsAreDistinct(hits: seq<Hit>, k: nat, l: nat) returns (i: nat, j: nat)
    requires k < l < |Leads(hits)|
    ensures Leads(hits)[k].article != Leads(hits)[l].article
    ensures i < j < |hits| && hits[i] == Leads(hits)[k] && hits[j] == Leads(hits)[l]
  {
    var front := hits[..|hits| - 1];
    if l < |Leads(front)| {
      i, j := LeadsAreDistinct(front, k, l);
    } else {
      LeadsAreLeads(front, k);
      i :| 0 <= i < |front| && front[i] == Leads(front)[k] && IsLead(front, i);
      j := |hits| - 1;
      assert hits[i] == front[i];
    }
  }

  /** In a pool ordered best first, the lead of an article is its best hit. */
  lemma LeadIsBest(hits: seq<Hit>, k: nat, i: nat)
    requires Descending(hits) && k < |Leads(hits)| && i < |hits| && hits[i].article == Leads(hits)[k].article
    ensures Leads(hits)[k].score >= hits[i].score
  {
    LeadsAreLeads(hits, k);
    var lead :| 0 <= lead < |hits| && hits[lead] == Leads(hits)[k] && IsLead(hits, lead);
    assert lead <= i;
  }

  /** leadingHits: one pass that stops as soon as it has n articles. */
  method LeadingHits(hits: seq<Hit>, n: nat) returns (best: seq<Hit>)
    ensures best == if |Leads(hits)| <= n then Leads(hits) else Leads(hits)[..n]
  {
    best := [];
    var seen: set<int> := {};
    for i := 0 to |hits|
      invariant best == Leads(hits[..i]) && |best| <= n
      invariant forall a :: a in seen <==> exists j :: 0 <= j < i && hits[j].article == a
    {
      if |best| == n {
        LeadsGrow(hits, i);
        return;
      }
      assert hits[..i + 1][..i] == hits[..i];
      if hits[i].article in seen {
        var j :| 0 <= j < i && hits[j].article == hits[i].article;
        assert hits[..i + 1][j] == hits[j];
        continue;
      }
      assert IsLead(hits[..i + 1], i);
      seen := seen + {hits[i].article};
      best := best + [hits[i]];
    }
    assert hits[..|hits|] == hits;
  }

  lemma {:induction false} LeadsGrow(hits: seq<Hit>, i: nat)
    requires i <= |hits|
    ensures Leads(hits[..i]) <= Leads(hits)
    decreases |hits|
  {
    if i < |hits| {
      var front := hits[..|hits| - 1];
      assert front[..i] == hits[..i];
      LeadsGrow(front, i);
    } else {
      assert hits[..i] == hits;
    }
  }

  datatype SpaceReranker = SpaceReranker(space: int, enabled: bool, model: int)

  datatype Pick = NoReranker | Picked(reranker: SpaceReranker) | Disagree

  /** pickReranker: a disagreement exactly when two enabled spaces name different
      models, no reranker exactly when none is enabled, else one they all agree on. */
  method PickReranker(spaces: seq<SpaceReranker>) returns (pick: Pick)
    ensures pick == Disagree <==>
            exists a, b :: a in spaces && b in spaces && a.enabled && b.enabled && a.model != b.model
    ensures pick == NoReranker <==> forall i | 0 <= i < |spaces| :: !spaces[i].enabled
    ensures pick.Picked? ==> pick.reranker in spaces && pick.reranker.enabled
    ensures pick.Picked? ==> forall i | 0 <= i < |spaces| && spaces[i].enabled :: spaces[i].model == pick.reranker.model
  {
    pick := NoReranker;
    for i := 0 to |spaces|
      invariant pick != Disagree
      invariant pick == NoReranker ==> forall j | 0 <= j < i :: !spaces[j].enabled
      invariant pick.Picked? ==> pick.reranker in spaces[..i] && pick.reranker.enabled
      invariant pick.Picked? ==> forall j | 0 <= j < i && spaces[j].enabled :: spaces[j].model == pick.reranker.model
    {
      if !spaces[i].enabled {
        continue;
      }
      if pick == NoReranker {
        pick := Picked(spaces[i]);
        continue;
      }
      if pick.reranker.model != spaces[i].model {
        assert pick.reranker in spaces && spaces[i] in spaces;
        return Disagree;
      }
    }
  }
}
