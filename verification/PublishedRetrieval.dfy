/**
 From the published manifest to the fused answer: each of the router's channels searches the
 manifest for `k` results only, and fusion returns the first `k` of the channels' complete
 rankings of what the caller may read.
 */
module PublishedRetrieval {
  import opened Wrappers
  import opened Sequences
  import opened Projections
  import opened VectorStore
  import opened Governance
  import opened SearchExactness
  import Fusion = RetrievalFusion
  import Text

  // ----- A cut answer belongs to a complete ranking -----

  /** Every member of `wanted` once, best first. */
  ghost predicate Ranking(wanted: set<PointId>, score: map<PointId, real>, full: seq<PointId>)
    requires wanted <= score.Keys
  {
    && Elements(full) == wanted && NoRepeats(full)
    && (forall id :: id in full ==> id in wanted)
    && forall i, j :: 0 <= i < j < |full| ==> score[full[i]] >= score[full[j]]
  }

  ghost predicate IsBest(best: PointId, ids: set<PointId>, score: map<PointId, real>)
    requires ids <= score.Keys
  {
    best in ids && forall x :: x in ids ==> score[x] <= score[best]
  }

  lemma BetterOfTwo(ids: set<PointId>, score: map<PointId, real>, any: PointId, best: PointId) returns (winner: PointId)
    requires ids <= score.Keys && any in ids && IsBest(best, ids - {any}, score)
    ensures IsBest(winner, ids, score)
  {
    winner := if score[any] <= score[best] then best else any;
    assert forall x :: x in ids ==> x == any || x in ids - {any};
  }

  lemma {:induction false} FindBest(ids: set<PointId>, score: map<PointId, real>) returns (best: PointId)
    requires ids != {} && ids <= score.Keys
    ensures IsBest(best, ids, score)
    decreases |ids|
  {
    var any :| any in ids;
    if ids - {any} == {} {
      best := any;
      assert forall x :: x in ids ==> x == any || x in ids - {any};
    } else {
      var other := FindBest(ids - {any}, score);
      best := BetterOfTwo(ids, score, any, other);
    }
  }

  lemma BestFirst(ids: set<PointId>, score: map<PointId, real>, best: PointId, rest: seq<PointId>)
    requires ids <= score.Keys && IsBest(best, ids, score)
    requires Ranking(ids - {best}, score, rest)
    ensures Ranking(ids, score, [best] + rest)
  {
    hide Elements;
    ElementsConcat([best], rest);
    ElementsSnoc([], best);
    ElementsOfNothing<PointId>();
    assert [] + [best] == [best];
    var full := [best] + rest;
    assert forall i :: 0 < i < |full| ==> full[i] == rest[i - 1] && full[i] in ids - {best};
  }

  lemma {:induction false} RankAll(ids: set<PointId>, score: map<PointId, real>) returns (full: seq<PointId>)
    requires ids <= score.Keys
    ensures Ranking(ids, score, full)
    decreases |ids|
  {
    if ids == {} {
      full := [];
      assert Elements(full) == {};
    } else {
      var best := FindBest(ids, score);
      var rest := RankAll(ids - {best}, score);
      full := [best] + rest;
      BestFirst(ids, score, best, rest);
    }
  }

  /** An answer of at most `k` is the beginning of a complete ranking. */
  lemma AnswerBeginsRanking(wanted: set<PointId>, score: map<PointId, real>, k: nat, answer: seq<PointId>)
    returns (full: seq<PointId>)
    requires wanted <= score.Keys && BestOf(wanted, score, k, answer)
    ensures Ranking(wanted, score, full) && Take(full, k) == answer
  {
    AnswerCount(wanted, answer);
    var rest := RankAll(wanted - Elements(answer), score);
    full := answer + rest;
    RankingsJoin(wanted, score, k, answer, rest);
    if |wanted| <= k {
      NothingLeft(wanted, answer, rest);
    }
  }

  lemma RankingsJoin(wanted: set<PointId>, score: map<PointId, real>, k: nat, answer: seq<PointId>, rest: seq<PointId>)
    requires wanted <= score.Keys && BestOf(wanted, score, k, answer) && Elements(answer) <= wanted
    requires Ranking(wanted - Elements(answer), score, rest)
    ensures Ranking(wanted, score, answer + rest)
  {
    hide Elements;
    var full := answer + rest;
    ElementsConcat(answer, rest);
    assert Elements(full) == wanted;
    assert forall id :: id in full ==> id in wanted;
    RestIsOther(wanted, answer, rest);
    forall i, j | 0 <= i < j < |full| ensures full[i] != full[j] && score[full[i]] >= score[full[j]] {
      if i >= |answer| {
        assert full[i] == rest[i - |answer|] && full[j] == rest[j - |answer|];
      } else if j >= |answer| {
        assert full[i] == answer[i] && full[j] == rest[j - |answer|];
      } else {
        assert full[i] == answer[i] && full[j] == answer[j];
      }
    }
  }

  lemma RestIsOther(wanted: set<PointId>, answer: seq<PointId>, rest: seq<PointId>)
    requires forall id :: id in rest ==> id in wanted - Elements(answer)
    ensures forall j :: 0 <= j < |rest| ==> rest[j] in wanted && rest[j] !in answer
  {
    forall j | 0 <= j < |rest| ensures rest[j] in wanted && rest[j] !in answer {
      assert rest[j] in rest;
    }
  }

  lemma AnswerCount(wanted: set<PointId>, answer: seq<PointId>)
    requires NoRepeats(answer) && forall i :: 0 <= i < |answer| ==> answer[i] in wanted
    ensures Elements(answer) <= wanted && |Elements(answer)| == |answer|
  {
    CountElements(answer);
  }

  lemma SomeMember(xs: seq<PointId>)
    requires xs != []
    ensures Elements(xs) != {}
  {
    assert xs[0] in Elements(xs);
  }

  lemma NothingLeft(wanted: set<PointId>, answer: seq<PointId>, rest: seq<PointId>)
    requires Elements(answer) <= wanted && |Elements(answer)| == |answer| == |wanted|
    requires Elements(rest) == wanted - Elements(answer)
    ensures rest == []
  {
    SubsetCount(Elements(answer), wanted);
    if rest != [] {
      SomeMember(rest);
    }
  }

  // ----- Channels over the manifest -----

  /** The filter a channel hands to the search. */
  function FilterOf(channel: Fusion.Channel): SearchFilter
  {
    SearchFilter(channel.knowledgeTypes, channel.domains, channel.ontologyPaths, channel.knowledgeOrigins,
                 channel.evidenceLevels, [], [], [])
  }

  /** Point ids as text: different, and never empty. */
  ghost predicate Renders(render: PointId -> string)
  {
    && (forall id :: render(id) != "")
    && forall a, b :: render(a) == render(b) ==> a == b
  }

  /** The result of one hit, as fusion identifies it. */
  function ResultsOf(ids: seq<PointId>, score: map<PointId, real>, render: PointId -> string): (rs: seq<Fusion.Result>)
    requires forall id :: id in ids ==> id in score
    ensures |rs| == |ids|
  {
    seq(|ids|, i requires 0 <= i < |ids| => Fusion.Result(render(ids[i]), "", "", score[ids[i]]))
  }

  lemma RankedResults(wanted: set<PointId>, score: map<PointId, real>, full: seq<PointId>, render: PointId -> string)
    requires wanted <= score.Keys && Ranking(wanted, score, full) && Renders(render)
    ensures Fusion.Descending(ResultsOf(full, score, render)) && Fusion.DistinctResults(ResultsOf(full, score, render))
  {
  }

  /** What channel `i` searches for. */
  function Channel(attention: bool, domains: seq<string>, i: nat): Option<SearchFilter>
    requires i < |Fusion.Plan(attention, domains)|
  {
    Some(FilterOf(Fusion.Plan(attention, domains)[i]))
  }

  /** The store answered channel `i` within its contract. */
  ghost predicate Answered(c: Config, m: Manifest, s: Store, caller: Caller, filter: Option<SearchFilter>,
                           score: map<PointId, real>, k: nat, answer: seq<PointId>)
    requires s.points.Keys <= score.Keys
  {
    BestOf(Selected(s.points, BuildFilter(filter, caller, IdentityOf(m))), score, k, answer)
  }

  /** What a filter finds in the collection when nothing is cut off. */
  function Found(m: Manifest, points: map<PointId, Payload>, caller: Caller, filter: Option<SearchFilter>): set<PointId>
  {
    Selected(points, BuildFilter(filter, caller, IdentityOf(m)))
  }

  lemma FoundIsStored(m: Manifest, points: map<PointId, Payload>, caller: Caller, filter: Option<SearchFilter>)
    ensures Found(m, points, caller, filter) <= points.Keys
  {
    hide BuildFilter, Matches;
  }

  /** The complete rankings behind the answers, one a channel. */
  ghost predicate Complete(m: Manifest, points: map<PointId, Payload>, caller: Caller, attention: bool,
                           domains: seq<string>, score: map<PointId, real>, full: seq<seq<PointId>>)
  {
    && |full| == |Fusion.Plan(attention, domains)|
    && forall i :: 0 <= i < |full| ==>
         Found(m, points, caller, Channel(attention, domains, i)) <= score.Keys
         && Ranking(Found(m, points, caller, Channel(attention, domains, i)), score, full[i])
  }

  /** Every channel finds exactly the projections the caller may read and the channel asks for. */
  ghost predicate FindsEligible(m: Manifest, points: map<PointId, Payload>, caller: Caller, attention: bool,
                                domains: seq<string>)
  {
    forall i :: 0 <= i < |Fusion.Plan(attention, domains)| ==>
      Found(m, points, caller, Channel(attention, domains, i)) == Eligible(m, caller, Channel(attention, domains, i))
  }

  function AllResults(lists: seq<seq<PointId>>, score: map<PointId, real>, render: PointId -> string)
    : (rs: seq<seq<Fusion.Result>>)
    requires forall i, id :: 0 <= i < |lists| && id in lists[i] ==> id in score
    ensures |rs| == |lists|
  {
    seq(|lists|, i requires 0 <= i < |lists| => ResultsOf(lists[i], score, render))
  }

  /** The search of one channel raises nothing and returns exactly the store's answer. */
  ghost predicate Succeeds(c: Config, s: Store, query: string, caller: Caller, filter: Option<SearchFilter>,
                           score: map<PointId, real>, answer: seq<PointId>)
  {
    && (forall id :: id in answer ==> id in score && id in s.points)
    && Search(c, s.present, query, Some(caller), filter, HitsOf(answer, score, s.points))
         == Success(HitsOf(answer, score, s.points))
  }

  /** What the channels offer, one channel after the other. */
  function Offered(attention: bool, domains: seq<string>, lists: seq<seq<PointId>>, score: map<PointId, real>,
                   render: PointId -> string): seq<Fusion.Candidate>
    requires |lists| == |Fusion.Plan(attention, domains)|
    requires forall i, id :: 0 <= i < |lists| && id in lists[i] ==> id in score
  {
    Fusion.Concat(Fusion.AllOffers(Fusion.Plan(attention, domains), AllResults(lists, score, render)))
  }

  lemma ChannelRanking(c: Config, m: Manifest, s: Store, query: string, caller: Caller, filter: Option<SearchFilter>,
                       score: map<PointId, real>, k: nat, answer: seq<PointId>) returns (full: seq<PointId>)
    requires ValidManifest(m) && Serves(c, m) && FullyIngested(s, m)
    requires Text.Strip(query) != [] && !caller.bootstrapLimited
    requires s.points.Keys <= score.Keys && Answered(c, m, s, caller, filter, score, k, answer)
    ensures Found(m, s.points, caller, filter) <= score.Keys
    ensures Ranking(Found(m, s.points, caller, filter), score, full) && Take(full, k) == answer
    ensures Succeeds(c, s, query, caller, filter, score, answer)
  {
    hide ValidManifest, FullyIngested, BuildFilter, Selected, Eligible, BestOf, Ranking, AllSpelled;
    PublishedSearchIsExact(c, m, s, query, caller, filter, score, k, answer);
    FoundIsStored(m, s.points, caller, filter);
    full := AnswerBeginsRanking(Found(m, s.points, caller, filter), score, k, answer);
  }

  lemma {:induction false} ChannelRankings(c: Config, m: Manifest, s: Store, query: string, caller: Caller,
                                           attention: bool, domains: seq<string>, score: map<PointId, real>, k: nat,
                                           answers: seq<seq<PointId>>, n: nat) returns (full: seq<seq<PointId>>)
    requires ValidManifest(m) && Serves(c, m) && FullyIngested(s, m)
    requires Text.Strip(query) != [] && !caller.bootstrapLimited
    requires s.points.Keys <= score.Keys && n <= |answers| == |Fusion.Plan(attention, domains)|
    requires forall i :: 0 <= i < |answers| ==>
               Answered(c, m, s, caller, Channel(attention, domains, i), score, k, answers[i])
    ensures |full| == n
    ensures forall i :: 0 <= i < n ==>
              && Found(m, s.points, caller, Channel(attention, domains, i)) <= score.Keys
              && Ranking(Found(m, s.points, caller, Channel(attention, domains, i)), score, full[i])
              && Take(full[i], k) == answers[i]
              && Succeeds(c, s, query, caller, Channel(attention, domains, i), score, answers[i])
    decreases n
  {
    hide ValidManifest, Serves, FullyIngested, Answered, Found, Ranking, Channel, Fusion.Plan, Take, Succeeds;
    full := [];
    if n > 0 {
      var before := ChannelRankings(c, m, s, query, caller, attention, domains, score, k, answers, n - 1);
      var last := ChannelRanking(c, m, s, query, caller, Channel(attention, domains, n - 1), score, k, answers[n - 1]);
      full := before + [last];
    }
  }

  /** Without a question about attention no channel names a path; with one, plain spelling is needed. */
  lemma ChannelsFindEligible(m: Manifest, points: map<PointId, Payload>, caller: Caller, attention: bool,
                             domains: seq<string>)
    requires ValidManifest(m) && Written(points, m, Ingested) && (!attention || PlainStore(points))
    ensures FindsEligible(m, points, caller, attention, domains)
  {
    hide ValidManifest, Written, BuildFilter, Selected, Eligible, PlainPaths;
    forall i | 0 <= i < |Fusion.Plan(attention, domains)|
      ensures Found(m, points, caller, Channel(attention, domains, i))
           == Eligible(m, caller, Channel(attention, domains, i))
    {
      FilterSelectsEligible(m, points, caller, Channel(attention, domains, i));
    }
  }

  lemma ResultsAreCut(lists: seq<seq<PointId>>, cut: seq<seq<PointId>>, score: map<PointId, real>,
                      render: PointId -> string, k: nat)
    requires |cut| == |lists| && forall i, id :: 0 <= i < |lists| && id in lists[i] ==> id in score
    requires forall i :: 0 <= i < |lists| ==> cut[i] == Take(lists[i], k)
    ensures forall i, id :: 0 <= i < |cut| && id in cut[i] ==> id in score
    ensures AllResults(cut, score, render) == Fusion.FirstK(AllResults(lists, score, render), k)
  {
    forall i, id | 0 <= i < |cut| && id in cut[i] ensures id in lists[i] && id in score {
    }
    var a, b := AllResults(cut, score, render), Fusion.FirstK(AllResults(lists, score, render), k);
    forall i | 0 <= i < |cut| ensures a[i] == b[i] {
      assert ResultsOf(cut[i], score, render) == Take(ResultsOf(lists[i], score, render), k);
    }
  }

  /**
   End to end: over a published manifest, whatever the store answers each channel within its contract,
   every channel's search succeeds with exactly that answer, and the fused answer is the first `k` of
   the channels' complete rankings, one channel after the other, without repeats. Those rank exactly
   the eligible projections, for questions about attention where every stored path is spelled plainly.
   */
  lemma PublishedRetrievalIsFirstK(c: Config, m: Manifest, s: Store, query: string, caller: Caller, attention: bool,
                                   domains: seq<string>, score: map<PointId, real>, render: PointId -> string, k: nat,
                                   answers: seq<seq<PointId>>) returns (full: seq<seq<PointId>>)
    requires ValidManifest(m) && Serves(c, m) && FullyIngested(s, m)
    requires Text.Strip(query) != [] && !caller.bootstrapLimited && Renders(render)
    requires s.points.Keys <= score.Keys && |answers| == |Fusion.Plan(attention, domains)|
    requires forall i :: 0 <= i < |answers| ==>
               Answered(c, m, s, caller, Channel(attention, domains, i), score, k, answers[i])
    ensures forall i :: 0 <= i < |answers| ==>
              Succeeds(c, s, query, caller, Channel(attention, domains, i), score, answers[i])
    ensures Complete(m, s.points, caller, attention, domains, score, full)
    ensures !attention || PlainStore(s.points) ==> FindsEligible(m, s.points, caller, attention, domains)
    ensures forall i, id :: 0 <= i < |full| && id in full[i] ==> id in score
    ensures forall i, id :: 0 <= i < |answers| && id in answers[i] ==> id in score
    ensures Fusion.Fuse(Offered(attention, domains, answers, score, render), k)
         == Take(Fusion.Extend([], Offered(attention, domains, full, score, render)), k)
  {
    hide ValidManifest, Serves, Written, Answered, Found, Channel, Fusion.Plan, Take, Fusion.Fuse, Fusion.Extend,
      Fusion.Concat, Fusion.AllOffers, Renders, Succeeds, Fusion.Descending, Fusion.DistinctResults, Fusion.FirstK,
      PlainStore, FindsEligible;
    full := ChannelRankings(c, m, s, query, caller, attention, domains, score, k, answers, |answers|);
    if !attention || PlainStore(s.points) {
      ChannelsFindEligible(m, s.points, caller, attention, domains);
    }
    forall i, id | 0 <= i < |full| && id in full[i] ensures id in score {
      FoundIsStored(m, s.points, caller, Channel(attention, domains, i));
    }
    ResultsAreCut(full, answers, score, render, k);
    var results := AllResults(full, score, render);
    forall i | 0 <= i < |results| ensures Fusion.Descending(results[i]) && Fusion.DistinctResults(results[i]) {
      RankedResults(Found(m, s.points, caller, Channel(attention, domains, i)), score, full[i], render);
    }
    Fusion.RetrieveIsFirstK(attention, domains, results, k);
  }
}
