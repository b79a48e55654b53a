/**
 What a question is answered with, in terms of projection fields: which projections each rank asks for,
 and that the answer lists the best of all of them, each once and under its best rank.
 */
module RetrievalContract {
  import opened Wrappers
  import opened Sequences
  import opened Projections
  import opened VectorStore
  import opened Governance
  import opened Publication
  import opened SearchExactness
  import opened PublishedRetrieval
  import Fusion = RetrievalFusion
  import Ordering
  import Text

  // ----- What is asked for -----

  /** One of the question's domains; any projection if it names none. */
  predicate InDomains(p: Payload, domains: seq<string>)
  {
    domains != [] ==> Intersects(Field(p, Domain), domains)
  }

  const ATTENTION_PATHS := ["misdirection.spatial", "misdirection.temporal", "misdirection.social",
                            "misdirection.cognitive", "misdirection.emotional"]

  /** What rank 1, or for a question about attention ranks 1 to 4, is about. */
  predicate IsAbout(p: Payload, attention: bool, rank: int)
  {
    if !attention then rank == 1
    else if rank == 1 then
      && Intersects(Field(p, KnowledgeType), ["evidence", "psychology"])
      && Intersects(Field(p, KnowledgeOrigin), ["scientific_evidence"])
      && Intersects(Field(p, EvidenceLevel), ["review", "empirical"])
    else if rank == 2 then
      && Intersects(Field(p, KnowledgeType), ["psychology", "performance"])
      && Intersects(Field(p, OntologyPaths), ATTENTION_PATHS)
    else if rank == 3 then
      && Intersects(Field(p, KnowledgeType), ["performance"])
      && Intersects(Field(p, KnowledgeOrigin), ["expert_practice"])
      && Intersects(Field(p, EvidenceLevel), ["practitioner"])
    else rank == 4 && Intersects(Field(p, KnowledgeType), ["technique"])
  }

  /** The readable projections that `rank` asks for. */
  function Asked(m: Manifest, caller: Caller, attention: bool, domains: seq<string>, rank: int): set<PointId>
  {
    set id | id in Index(m.projections) && Readable(Index(m.projections)[id], caller)
             && InDomains(Index(m.projections)[id], domains) && IsAbout(Index(m.projections)[id], attention, rank)
  }

  lemma PlanDecided(attention: bool, domains: seq<string>, i: nat, p: Payload)
    ensures |Fusion.Plan(attention, domains)| == if attention then 4 else 1
    ensures i < |Fusion.Plan(attention, domains)| ==>
      && Fusion.Plan(attention, domains)[i].priority == i + 1
      && (AsksFor(p, FilterOf(Fusion.Plan(attention, domains)[i])) <==>
            InDomains(p, domains) && IsAbout(p, attention, i + 1))
  {
    hide Intersects, Field;
    if attention && i < 4 {
      var channel := Fusion.Plan(attention, domains)[i];
      match i {
        case 0 => assert channel.knowledgeTypes == ["evidence", "psychology"] && channel.ontologyPaths == [];
        case 1 => assert channel.ontologyPaths == ATTENTION_PATHS && channel.knowledgeOrigins == [];
        case 2 => assert channel.knowledgeTypes == ["performance"] && channel.ontologyPaths == [];
        case _ => assert channel.knowledgeTypes == ["technique"] && channel.ontologyPaths == [];
      }
    }
  }

  /** Each channel asks for exactly what its rank asks for. */
  lemma ChannelsAsk(m: Manifest, caller: Caller, attention: bool, domains: seq<string>, i: nat)
    requires i < |Fusion.Plan(attention, domains)|
    ensures Fusion.Plan(attention, domains)[i].priority == i + 1
    ensures Eligible(m, caller, Channel(attention, domains, i)) == Asked(m, caller, attention, domains, i + 1)
  {
    hide Intersects, Field, Index, Readable, Fusion.Plan, AsksFor, IsAbout, InDomains;
    PlanDecided(attention, domains, i, map[]);
    forall id | id in Index(m.projections)
      ensures Wanted(Index(m.projections)[id], Channel(attention, domains, i)) <==>
                InDomains(Index(m.projections)[id], domains) && IsAbout(Index(m.projections)[id], attention, i + 1)
    {
      PlanDecided(attention, domains, i, Index(m.projections)[id]);
    }
  }

  /** Results are the same by their unit; without one by their artifact; without that by their text. */
  lemma IdentityDecided(a: Fusion.Result)
    ensures a.unitId != "" ==> Fusion.Identity(a) == a.unitId
    ensures a.unitId == "" && a.artifactId != "" ==> Fusion.Identity(a) == a.artifactId
    ensures a.unitId == "" && a.artifactId == "" ==> Fusion.Identity(a) == a.text
  {
  }

  // ----- What is answered -----

  /** The answer entry `c` is projection `id` under a rank that asks for it. */
  predicate Gives(m: Manifest, caller: Caller, attention: bool, domains: seq<string>, score: map<PointId, real>,
                  render: PointId -> string, c: Fusion.Candidate, id: PointId)
  {
    && id in Asked(m, caller, attention, domains, c.priority) && id in score
    && c.result == Fusion.Result(render(id), "", "", score[id])
  }

  /** `a` stands before `b`: a lower rank, or the same with at least its score. */
  predicate Precedes(a: Fusion.Candidate, rank: int, score: real)
  {
    a.priority < rank || (a.priority == rank && a.result.score >= score)
  }

  /** The projection is listed, under no higher rank than this. */
  ghost predicate ListedBy(answer: seq<Fusion.Candidate>, rank: int, unit: string)
  {
    exists c :: c in answer && c.result.unitId == unit && c.priority <= rank
  }

  /** The answer is full, and nothing in it has to make room. */
  predicate CrowdedOut(answer: seq<Fusion.Candidate>, k: nat, rank: int, score: real)
  {
    |answer| == k && forall c :: c in answer ==> Precedes(c, rank, score)
  }

  /** What an answer has to be. */
  ghost predicate IsAnswer(m: Manifest, caller: Caller, attention: bool, domains: seq<string>,
                           score: map<PointId, real>, render: PointId -> string, k: nat, answer: seq<Fusion.Candidate>)
  {
    && |answer| <= k
    && (forall c :: c in answer ==> exists id :: Gives(m, caller, attention, domains, score, render, c, id))
    && (forall i, j :: 0 <= i < j < |answer| ==> answer[i].result.unitId != answer[j].result.unitId)
    && (forall i, j :: 0 <= i < j < |answer| ==> Precedes(answer[i], answer[j].priority, answer[j].result.score))
    && (forall rank, id :: id in Asked(m, caller, attention, domains, rank) && id in score ==>
          ListedBy(answer, rank, render(id)) || CrowdedOut(answer, k, rank, score[id]))
  }

  lemma {:induction false} ConcatMembers(lists: seq<seq<Fusion.Candidate>>, c: Fusion.Candidate)
    ensures c in Fusion.Concat(lists) <==> exists i :: 0 <= i < |lists| && c in lists[i]
    decreases |lists|
  {
    if lists != [] {
      var init := lists[..|lists| - 1];
      ConcatMembers(init, c);
      if i :| 0 <= i < |lists| && c in lists[i] {
        assert i < |init| ==> init[i] == lists[i];
      }
    }
  }

  lemma OfferedIs(attention: bool, domains: seq<string>, full: seq<seq<PointId>>, score: map<PointId, real>,
                  render: PointId -> string, c: Fusion.Candidate)
    requires |full| == |Fusion.Plan(attention, domains)|
    requires forall i, id :: 0 <= i < |full| && id in full[i] ==> id in score
    ensures c in Offered(attention, domains, full, score, render) <==>
      exists i, id :: 0 <= i < |full| && id in full[i]
                      && c == Fusion.Candidate(i + 1, Fusion.Result(render(id), "", "", score[id]))
  {
    hide Fusion.Plan, Fusion.Concat;
    var plan := Fusion.Plan(attention, domains);
    var lists := Fusion.AllOffers(plan, AllResults(full, score, render));
    ConcatMembers(lists, c);
    forall i | 0 <= i < |full| ensures plan[i].priority == i + 1 {
      PlanDecided(attention, domains, i, map[]);
    }
    forall i | 0 <= i < |full|
      ensures c in lists[i] <==>
        exists id :: id in full[i] && c == Fusion.Candidate(i + 1, Fusion.Result(render(id), "", "", score[id]))
    {
      var offers := lists[i];
      if c in offers {
        var n :| 0 <= n < |offers| && offers[n] == c;
        assert full[i][n] in full[i];
      }
      if id :| id in full[i] && c == Fusion.Candidate(i + 1, Fusion.Result(render(id), "", "", score[id])) {
        var n :| 0 <= n < |full[i]| && full[i][n] == id;
        assert offers[n] == c;
      }
    }
  }

  /** Every channel's ranking, one after the other, is in rank order. */
  lemma RankingsAreRanked(attention: bool, domains: seq<string>, full: seq<seq<PointId>>, score: map<PointId, real>,
                          render: PointId -> string)
    requires |full| == |Fusion.Plan(attention, domains)|
    requires forall i, id :: 0 <= i < |full| && id in full[i] ==> id in score
    requires forall i, j, l :: 0 <= i < |full| && 0 <= j < l < |full[i]| ==> score[full[i][j]] >= score[full[i][l]]
    ensures Ordering.Sorted(Offered(attention, domains, full, score, render), Fusion.NotWorse())
  {
    hide Fusion.Plan, Fusion.NotWorse, Fusion.AllOffers, Fusion.Concat;
    Fusion.PlanIsAscending(attention, domains);
    Fusion.ChannelsAreRanked(Fusion.Plan(attention, domains), AllResults(full, score, render));
  }

  /** The answer is the fusion of everything the channels would find. */
  lemma NothingIsLost(c: Config, m: Manifest, s: Store, query: string, caller: Caller, attention: bool,
                      domains: seq<string>, score: map<PointId, real>, render: PointId -> string, k: nat,
                      answers: seq<seq<PointId>>) returns (full: seq<seq<PointId>>)
    requires ValidManifest(m) && Serves(c, m) && FullyIngested(s, m) && (!attention || PlainStore(s.points))
    requires Text.Strip(query) != [] && !caller.bootstrapLimited && Renders(render)
    requires s.points.Keys <= score.Keys && |answers| == |Fusion.Plan(attention, domains)|
    requires forall i :: 0 <= i < |answers| ==>
               Answered(c, m, s, caller, Channel(attention, domains, i), score, k, answers[i])
    ensures |full| == |answers| && forall i, id :: 0 <= i < |full| && id in full[i] ==> id in score
    ensures forall i, id :: 0 <= i < |answers| && id in answers[i] ==> id in score
    ensures forall i, id :: 0 <= i < |full| ==> (id in full[i] <==> id in Asked(m, caller, attention, domains, i + 1))
    ensures Fusion.Fuse(Offered(attention, domains, answers, score, render), k)
         == Fusion.Fuse(Offered(attention, domains, full, score, render), k)
  {
    hide ValidManifest, Serves, Written, Answered, Found, Channel, Fusion.Plan, Take, Fusion.Fuse, Fusion.Extend,
      Fusion.NotWorse, PlainStore, Asked, Eligible, Renders, Offered;
    full := PublishedRetrievalIsFirstK(c, m, s, query, caller, attention, domains, score, render, k, answers);
    forall i, id | 0 <= i < |full|
      ensures id in full[i] <==> id in Asked(m, caller, attention, domains, i + 1)
    {
      ChannelsAsk(m, caller, attention, domains, i);
      assert Found(m, s.points, caller, Channel(attention, domains, i)) == Asked(m, caller, attention, domains, i + 1);
      assert id in full[i] <==> id in Elements(full[i]);
    }
    RankingsAreRanked(attention, domains, full, score, render);
    Fusion.FusionRefinesFirsts(Offered(attention, domains, full, score, render), k);
  }

  /**
   The answer to a question, whatever the store answers the channels within its contract: the first `k`
   of all projections some rank asks for, lowest rank first and best score first within a rank, each once
   and under its lowest rank.
   */
  lemma AnswerDecided(c: Config, m: Manifest, s: Store, query: string, caller: Caller, attention: bool,
                      domains: seq<string>, score: map<PointId, real>, render: PointId -> string, k: nat,
                      answers: seq<seq<PointId>>)
    requires ValidManifest(m) && Serves(c, m) && FullyIngested(s, m) && (!attention || PlainStore(s.points))
    requires Text.Strip(query) != [] && !caller.bootstrapLimited && Renders(render)
    requires s.points.Keys <= score.Keys && |answers| == |Fusion.Plan(attention, domains)|
    requires forall i :: 0 <= i < |answers| ==>
               Answered(c, m, s, caller, Channel(attention, domains, i), score, k, answers[i])
    ensures forall i, id :: 0 <= i < |answers| && id in answers[i] ==> id in score
    ensures IsAnswer(m, caller, attention, domains, score, render, k,
                     Fusion.Fuse(Offered(attention, domains, answers, score, render), k))
  {
    hide ValidManifest, Serves, Written, Answered, Channel, Fusion.Plan, Fusion.Fuse, PlainStore, Asked, Offered,
      IsAnswer;
    var full := NothingIsLost(c, m, s, query, caller, attention, domains, score, render, k, answers);
    assert |full| == if attention then 4 else 1 by { PlanDecided(attention, domains, 0, map[]); }
    FusionAnswers(m, caller, attention, domains, full, score, render, k);
  }

  lemma FusionAnswers(m: Manifest, caller: Caller, attention: bool, domains: seq<string>, full: seq<seq<PointId>>,
                      score: map<PointId, real>, render: PointId -> string, k: nat)
    requires |full| == |Fusion.Plan(attention, domains)| == (if attention then 4 else 1) && Renders(render)
    requires forall i, id :: 0 <= i < |full| && id in full[i] ==> id in score
    requires forall i, id :: 0 <= i < |full| ==> (id in full[i] <==> id in Asked(m, caller, attention, domains, i + 1))
    ensures IsAnswer(m, caller, attention, domains, score, render, k,
                     Fusion.Fuse(Offered(attention, domains, full, score, render), k))
  {
    hide Fusion.Plan, Fusion.Fuse, Asked, Offered, Fusion.NotWorse, Ordering.Sorted, ListedBy, CrowdedOut, Precedes;
    var offers := Offered(attention, domains, full, score, render);
    var answer := Fusion.Fuse(offers, k);
    forall x | x in answer ensures exists id :: Gives(m, caller, attention, domains, score, render, x, id) {
      Fusion.FusionKeepsTheBest(offers, k, x);
      OfferedIs(attention, domains, full, score, render, x);
      var i, id :| 0 <= i < |full| && id in full[i]
                   && x == Fusion.Candidate(i + 1, Fusion.Result(render(id), "", "", score[id]));
      assert Gives(m, caller, attention, domains, score, render, x, id);
    }
    forall rank, id | id in Asked(m, caller, attention, domains, rank) && id in score
      ensures ListedBy(answer, rank, render(id)) || CrowdedOut(answer, k, rank, score[id])
    {
      RankIsChannel(m, caller, attention, domains, rank, id);
      OneIsAnswered(attention, domains, full, score, render, k, rank, id);
    }
    AnswerIsSorted(offers, k);
    assert forall x :: x in answer ==> x.result.unitId != "";
    AnswerIsDistinct(offers, k);
  }

  lemma RankIsChannel(m: Manifest, caller: Caller, attention: bool, domains: seq<string>, rank: int, id: PointId)
    requires id in Asked(m, caller, attention, domains, rank)
    ensures 1 <= rank <= if attention then 4 else 1
  {
    hide Intersects, Index, Readable, InDomains;
  }

  lemma OneIsAnswered(attention: bool, domains: seq<string>, full: seq<seq<PointId>>, score: map<PointId, real>,
                      render: PointId -> string, k: nat, rank: int, id: PointId)
    requires |full| == |Fusion.Plan(attention, domains)| && Renders(render)
    requires forall i, id :: 0 <= i < |full| && id in full[i] ==> id in score
    requires 1 <= rank <= |full| && id in full[rank - 1]
    ensures var answer := Fusion.Fuse(Offered(attention, domains, full, score, render), k);
      ListedBy(answer, rank, render(id)) || CrowdedOut(answer, k, rank, score[id])
  {
    hide Fusion.Plan, Fusion.Fuse, Offered, Fusion.NotWorse, Ordering.Sorted;
    var offers := Offered(attention, domains, full, score, render);
    var x := Fusion.Candidate(rank, Fusion.Result(render(id), "", "", score[id]));
    OfferedIs(attention, domains, full, score, render, x);
    Fusion.FusionKeepsTheBest(offers, k, x);
    forall b | b in Fusion.Fuse(offers, k) ensures b in offers && b.result.unitId != "" {
      Fusion.FusionKeepsTheBest(offers, k, b);
      OfferedIs(attention, domains, full, score, render, b);
    }
  }

  lemma AnswerIsSorted(offers: seq<Fusion.Candidate>, k: nat)
    ensures var answer := Fusion.Fuse(offers, k);
      forall i, j :: 0 <= i < j < |answer| ==> Precedes(answer[i], answer[j].priority, answer[j].result.score)
  {
    hide Fusion.Fuse;
    var answer := Fusion.Fuse(offers, k);
    forall i, j | 0 <= i < j < |answer| ensures Precedes(answer[i], answer[j].priority, answer[j].result.score) {
      Fusion.FusionKeepsTheBest(offers, k, answer[i]);
      assert Fusion.NotWorse()(answer[i], answer[j]);
    }
  }

  lemma AnswerIsDistinct(offers: seq<Fusion.Candidate>, k: nat)
    requires forall x :: x in Fusion.Fuse(offers, k) ==> x.result.unitId != ""
    ensures |Fusion.Fuse(offers, k)| <= k
    ensures var answer := Fusion.Fuse(offers, k);
      forall i, j :: 0 <= i < j < |answer| ==> answer[i].result.unitId != answer[j].result.unitId
  {
    hide Fusion.Fuse, Fusion.NotWorse, Ordering.Sorted;
    var answer := Fusion.Fuse(offers, k);
    Fusion.FusionKeepsTheBest(offers, k, Fusion.Candidate(0, Fusion.Result("", "", "", 0.0)));
    forall i, j | 0 <= i < j < |answer| ensures answer[i].result.unitId != answer[j].result.unitId {
      assert answer[i] in answer && answer[j] in answer;
      assert Fusion.Id(answer[i]) != Fusion.Id(answer[j]);
    }
  }
}
