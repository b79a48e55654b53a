/**
 Fusing the ranked results of several retrieval channels (app/service.py `_retrieve`,
 retrieval/routing.py `plan`). Scores are real numbers; ties are kept.
 */
module RetrievalFusion {
  import opened Sequences
  import Ordering

  datatype Result = Result(unitId: string, artifactId: string, text: string, score: real)

  /** One offered result under its channel's priority; lower priority numbers rank first. */
  datatype Candidate = Candidate(priority: int, result: Result)

  /** `knowledge_unit_id or artifact_id or text`: the first that is not empty. */
  function Identity(r: Result): string
  {
    if r.unitId != "" then r.unitId else if r.artifactId != "" then r.artifactId else r.text
  }

  function Id(c: Candidate): string
  {
    Identity(c.result)
  }

  /** `(priority, -score)` is strictly smaller. */
  predicate Better(a: Candidate, b: Candidate)
  {
    a.priority < b.priority || (a.priority == b.priority && a.result.score > b.result.score)
  }

  function NotWorse(): (Candidate, Candidate) -> bool
  {
    (a: Candidate, b: Candidate) => !Better(b, a)
  }

  lemma NotWorseIsTotal()
    ensures Ordering.TotalPreorder(NotWorse())
  {
  }

  /** An insertion-ordered dictionary: reassigning a key keeps its place. */
  datatype Ranked = Ranked(order: seq<string>, best: map<string, Candidate>)

  predicate Coherent(d: Ranked)
  {
    && (forall i :: 0 <= i < |d.order| ==> d.order[i] in d.best && Id(d.best[d.order[i]]) == d.order[i])
    && (forall k :: k in d.best ==> k in d.order)
    && (forall i, j :: 0 <= i < j < |d.order| ==> d.order[i] != d.order[j])
  }

  function Offer(d: Ranked, c: Candidate): Ranked
  {
    if Id(c) !in d.best then Ranked(d.order + [Id(c)], d.best[Id(c) := c])
    else if Better(c, d.best[Id(c)]) then d.(best := d.best[Id(c) := c])
    else d
  }

  function OfferAll(offers: seq<Candidate>): (d: Ranked)
    ensures Coherent(d)
  {
    if offers == [] then Ranked([], map[])
    else Offer(OfferAll(offers[..|offers| - 1]), offers[|offers| - 1])
  }

  function Values(d: Ranked): seq<Candidate>
    requires Coherent(d)
  {
    seq(|d.order|, i requires 0 <= i < |d.order| => d.best[d.order[i]])
  }

  /** What `_retrieve` computes from everything its channels offered, in order. */
  function Fuse(offers: seq<Candidate>, limit: nat): seq<Candidate>
  {
    Take(Ordering.StableSort(Values(OfferAll(offers)), NotWorse()), limit)
  }

  // ----- For any offers at all -----

  lemma OfferKeepsBest(d: Ranked, c: Candidate, x: Candidate)
    requires Id(x) in d.best && !Better(x, d.best[Id(x)])
    ensures Id(x) in Offer(d, c).best && !Better(x, Offer(d, c).best[Id(x)])
  {
    hide Id;
  }

  lemma {:induction false} BestIsOffered(offers: seq<Candidate>)
    ensures forall k :: k in OfferAll(offers).best ==> OfferAll(offers).best[k] in offers
    ensures forall c :: c in offers ==> Id(c) in OfferAll(offers).best && !Better(c, OfferAll(offers).best[Id(c)])
  {
    hide Id, Better, Coherent;
    if offers != [] {
      var init, last := offers[..|offers| - 1], offers[|offers| - 1];
      BestIsOffered(init);
      assert offers == init + [last];
      forall c | c in offers ensures Id(c) in OfferAll(offers).best && !Better(c, OfferAll(offers).best[Id(c)]) {
        if c in init {
          OfferKeepsBest(OfferAll(init), last, c);
        } else {
          LastIsMatched(OfferAll(init), last);
        }
      }
    }
  }

  lemma LastIsMatched(d: Ranked, c: Candidate)
    ensures Id(c) in Offer(d, c).best && !Better(c, Offer(d, c).best[Id(c)])
  {
  }

  predicate DistinctIds(cs: seq<Candidate>)
  {
    forall i, j :: 0 <= i < j < |cs| ==> Id(cs[i]) != Id(cs[j])
  }

  function IdsOf(cs: seq<Candidate>): set<string>
  {
    set c | c in cs :: Id(c)
  }

  /** Identities are distinct exactly when there are as many of them as candidates. */
  lemma {:induction false} CountIds(cs: seq<Candidate>)
    ensures |IdsOf(cs)| <= |cs|
    ensures DistinctIds(cs) <==> |IdsOf(cs)| == |cs|
  {
    hide Id;
    if cs != [] {
      var init, last := cs[..|cs| - 1], cs[|cs| - 1];
      CountIds(init);
      assert cs == init + [last];
      assert IdsOf(cs) == IdsOf(init) + {Id(last)};
      if |IdsOf(cs)| == |cs| {
        assert Id(last) !in IdsOf(init);
        forall i | 0 <= i < |init| ensures Id(cs[i]) != Id(last) {
          assert init[i] in init;
        }
      }
      if DistinctIds(cs) {
        assert DistinctIds(init);
        assert Id(last) !in IdsOf(init);
      }
    }
  }

  lemma DistinctSurvivesSort(xs: seq<Candidate>, ys: seq<Candidate>)
    requires DistinctIds(xs) && multiset(xs) == multiset(ys)
    ensures DistinctIds(ys)
  {
    hide Id;
    CountIds(xs);
    CountIds(ys);
    assert |xs| == |multiset(xs)| == |multiset(ys)| == |ys|;
    assert forall c :: c in xs <==> c in multiset(xs);
    assert forall c :: c in ys <==> c in multiset(ys);
    assert IdsOf(xs) == IdsOf(ys);
  }

  /** The full ranking, before it is cut to the limit. */
  lemma RankingFacts(offers: seq<Candidate>, sorted: seq<Candidate>)
    requires sorted == Ordering.StableSort(Values(OfferAll(offers)), NotWorse())
    ensures Ordering.Sorted(sorted, NotWorse()) && DistinctIds(sorted)
    ensures forall x :: x in sorted <==> x in Values(OfferAll(offers))
  {
    hide Id, Better;
    var vs := Values(OfferAll(offers));
    NotWorseIsTotal();
    Ordering.SortSorts(vs, NotWorse());
    DistinctSurvivesSort(vs, sorted);
    assert forall x :: x in vs <==> x in multiset(vs);
    assert forall x :: x in sorted <==> x in multiset(sorted);
  }

  lemma BestIsRanked(offers: seq<Candidate>, c: Candidate)
    requires c in offers
    ensures exists b :: b in Values(OfferAll(offers)) && Id(b) == Id(c) && !Better(c, b)
  {
    hide Id, Better, OfferAll;
    BestIsOffered(offers);
    BestIsValue(OfferAll(offers), Id(c));
  }

  lemma BestIsValue(d: Ranked, id: string)
    requires Coherent(d) && id in d.best
    ensures d.best[id] in Values(d) && Id(d.best[id]) == id
  {
    hide Id;
    var i :| 0 <= i < |d.order| && d.order[i] == id;
    assert Values(d)[i] == d.best[id];
  }

  lemma CutKeepsOrder(sorted: seq<Candidate>, limit: nat, c: Candidate, b: Candidate)
    requires Ordering.Sorted(sorted, NotWorse()) && b in sorted && !Better(c, b)
    ensures b in Take(sorted, limit)
      || (|Take(sorted, limit)| == limit && forall x :: x in Take(sorted, limit) ==> !Better(c, x))
  {
    var i :| 0 <= i < |sorted| && sorted[i] == b;
    if i < limit {
      assert Take(sorted, limit)[i] == b;
    } else {
      forall x | x in Take(sorted, limit) ensures !Better(c, x) {
        var k :| 0 <= k < limit && sorted[k] == x;
        assert NotWorse()(sorted[k], sorted[i]);
      }
    }
  }

  /**
   Whatever the priorities and scores: no identity appears twice, each appears by its best offer, the
   result is in rank order, and anything left out is beaten by a full list.
   */
  lemma FusionKeepsTheBest(offers: seq<Candidate>, limit: nat, c: Candidate)
    ensures Ordering.Sorted(Fuse(offers, limit), NotWorse()) && DistinctIds(Fuse(offers, limit))
    ensures |Fuse(offers, limit)| <= limit
    ensures c in Fuse(offers, limit) ==> c in offers
    ensures c in offers ==>
      || (exists b :: b in Fuse(offers, limit) && Id(b) == Id(c) && !Better(c, b))
      || (|Fuse(offers, limit)| == limit && forall b :: b in Fuse(offers, limit) ==> !Better(c, b))
  {
    hide Id, Better, OfferAll, Values, Coherent;
    var sorted := Ordering.StableSort(Values(OfferAll(offers)), NotWorse());
    RankingFacts(offers, sorted);
    ValuesAreOffered(offers);
    if c in offers {
      BestIsRanked(offers, c);
      var b :| b in Values(OfferAll(offers)) && Id(b) == Id(c) && !Better(c, b);
      CutKeepsOrder(sorted, limit, c, b);
    }
  }

  lemma ValuesAreOffered(offers: seq<Candidate>)
    ensures forall b :: b in Values(OfferAll(offers)) ==> b in offers
  {
    hide Id, Better, OfferAll;
    BestIsOffered(offers);
  }

  // ----- Ranked channels -----

  /** `acc` extended by what `xs` adds: the first offer of each identity not seen before. */
  function Extend(acc: seq<Candidate>, xs: seq<Candidate>): seq<Candidate>
  {
    if xs == [] then acc
    else
      var before := Extend(acc, xs[..|xs| - 1]);
      if Id(xs[|xs| - 1]) in IdsOf(before) then before else before + [xs[|xs| - 1]]
  }

  lemma NoOffers()
    ensures Values(OfferAll([])) == [] && IdsOf([]) == {}
  {
  }

  lemma NewOfferIsLast(d: Ranked, c: Candidate)
    requires Coherent(d) && Id(c) !in d.best
    ensures Coherent(Offer(d, c)) && Values(Offer(d, c)) == Values(d) + [c]
  {
    hide Id, Better;
  }

  lemma OfferInOrder(d: Ranked, e: seq<Candidate>, c: Candidate)
    requires Coherent(d) && Values(d) == e && IdsOf(e) == d.best.Keys
    requires Id(c) in d.best ==> !Better(c, d.best[Id(c)])
    ensures var e' := if Id(c) in IdsOf(e) then e else e + [c];
      Coherent(Offer(d, c)) && Values(Offer(d, c)) == e' && IdsOf(e') == Offer(d, c).best.Keys
  {
    hide Id, Better, Coherent, Values;
    if Id(c) !in d.best {
      NewOfferIsLast(d, c);
      assert IdsOf(e + [c]) == IdsOf(e) + {Id(c)};
    }
  }

  lemma LastIsNotBetter(offers: seq<Candidate>)
    requires Ordering.Sorted(offers, NotWorse()) && offers != []
    ensures var d, last := OfferAll(offers[..|offers| - 1]), offers[|offers| - 1];
      Id(last) in d.best ==> !Better(last, d.best[Id(last)])
  {
    hide Id, OfferAll, Coherent, Better, Values;
    var init, last := offers[..|offers| - 1], offers[|offers| - 1];
    BestIsOffered(init);
    var d := OfferAll(init);
    if Id(last) in d.best {
      var i :| 0 <= i < |init| && init[i] == d.best[Id(last)];
      assert NotWorse()(offers[i], last);
    }
  }

  /** A later offer never displaces an earlier one when offers come in rank order. */
  lemma {:induction false} OffersInOrder(offers: seq<Candidate>)
    requires Ordering.Sorted(offers, NotWorse())
    ensures Values(OfferAll(offers)) == Extend([], offers)
    ensures IdsOf(Extend([], offers)) == OfferAll(offers).best.Keys
  {
    hide Id, Values, Coherent, Better, IdsOf;
    NoOffers();
    if offers != [] {
      var init, last := offers[..|offers| - 1], offers[|offers| - 1];
      OffersInOrder(init);
      LastIsNotBetter(offers);
      OfferInOrder(OfferAll(init), Extend([], init), last);
    }
  }

  lemma {:induction false} ExtendIsSorted(offers: seq<Candidate>)
    requires Ordering.Sorted(offers, NotWorse())
    ensures Ordering.Sorted(Extend([], offers), NotWorse())
    ensures forall c :: c in Extend([], offers) ==> c in offers
  {
    hide Id, Better;
    if offers != [] {
      var init, last := offers[..|offers| - 1], offers[|offers| - 1];
      ExtendIsSorted(init);
      assert offers == init + [last];
      forall c | c in init ensures NotWorse()(c, last) {
        var i :| 0 <= i < |init| && init[i] == c;
        assert NotWorse()(offers[i], offers[|offers| - 1]);
      }
    }
  }

  /** The fast form refines the simple one: in rank order, fusion just drops later repeats and takes `limit`. */
  lemma FusionRefinesFirsts(offers: seq<Candidate>, limit: nat)
    requires Ordering.Sorted(offers, NotWorse())
    ensures Fuse(offers, limit) == Take(Extend([], offers), limit)
  {
    OffersInOrder(offers);
    ExtendIsSorted(offers);
    Ordering.SortedIsFixed(Extend([], offers), NotWorse());
  }

  lemma {:induction false} ExtendConcat(acc: seq<Candidate>, xs: seq<Candidate>, ys: seq<Candidate>)
    ensures Extend(acc, xs + ys) == Extend(Extend(acc, xs), ys)
  {
    if ys == [] {
      assert xs + ys == xs;
    } else {
      ExtendConcat(acc, xs, ys[..|ys| - 1]);
      assert (xs + ys)[..|xs + ys| - 1] == xs + ys[..|ys| - 1];
    }
  }

  lemma {:induction false} ExtendGrows(acc: seq<Candidate>, xs: seq<Candidate>)
    ensures acc <= Extend(acc, xs)
    ensures IdsOf(xs) <= IdsOf(Extend(acc, xs))
  {
    if xs != [] {
      var init, last := xs[..|xs| - 1], xs[|xs| - 1];
      ExtendGrows(acc, init);
      assert IdsOf(xs) == IdsOf(init) + {Id(last)} by { assert xs == init + [last]; }
      assert IdsOf(Extend(acc, init) + [last]) == IdsOf(Extend(acc, init)) + {Id(last)};
    }
  }

  function Concat(lists: seq<seq<Candidate>>): seq<Candidate>
  {
    if lists == [] then [] else Concat(lists[..|lists| - 1]) + lists[|lists| - 1]
  }

  function Truncated(lists: seq<seq<Candidate>>, k: nat): seq<seq<Candidate>>
  {
    seq(|lists|, i requires 0 <= i < |lists| => Take(lists[i], k))
  }

  /** Asking each channel for `k` results only loses nothing of the first `k` fused ones. */
  lemma {:induction false} TruncationIsLossless(lists: seq<seq<Candidate>>, k: nat)
    requires forall i :: 0 <= i < |lists| ==> DistinctIds(lists[i])
    ensures Take(Extend([], Concat(Truncated(lists, k))), k) == Take(Extend([], Concat(lists)), k)
  {
    if lists != [] {
      var init, last := lists[..|lists| - 1], lists[|lists| - 1];
      TruncationIsLossless(init, k);
      assert Truncated(lists, k)[..|lists| - 1] == Truncated(init, k);
      var a, b := Extend([], Concat(Truncated(init, k))), Extend([], Concat(init));
      var short := Take(last, k);
      ExtendConcat([], Concat(Truncated(init, k)), short);
      ExtendConcat([], Concat(init), last);
      LosslessStep(a, b, last, k);
    }
  }

  lemma LosslessStep(a: seq<Candidate>, b: seq<Candidate>, last: seq<Candidate>, k: nat)
    requires Take(a, k) == Take(b, k) && DistinctIds(last)
    ensures Take(Extend(a, Take(last, k)), k) == Take(Extend(b, last), k)
  {
    hide Id, Extend;
    var short := Take(last, k);
    ExtendGrows(a, short);
    ExtendGrows(b, last);
    if |a| < k && |last| > k {
      FullChannelDecides(a, last, k);
    }
  }

  /** A channel with more than `k` distinct results fills the first `k` places from its first `k` alone. */
  lemma FullChannelDecides(a: seq<Candidate>, last: seq<Candidate>, k: nat)
    requires DistinctIds(last) && |last| > k
    ensures |Extend(a, last[..k])| >= k && Extend(a, last[..k]) <= Extend(a, last)
  {
    hide Id, Extend;
    var short := last[..k];
    ExtendConcat(a, short, last[k..]);
    assert short + last[k..] == last;
    ExtendGrows(Extend(a, short), last[k..]);
    ExtendGrows(a, short);
    CountIds(short);
    CountIds(Extend(a, short));
    SubsetCount(IdsOf(short), IdsOf(Extend(a, short)));
  }

  /** Distinct identities within a channel are needed: a repeat can use up the channel's `k` results. */
  lemma RepeatsLoseResults() returns (lists: seq<seq<Candidate>>)
    ensures Take(Extend([], Concat(Truncated(lists, 2))), 2) != Take(Extend([], Concat(lists)), 2)
  {
    var a, b := Candidate(1, Result("a", "", "", 2.0)), Candidate(1, Result("b", "", "", 1.0));
    lists := [[a, a, b]];
    assert Take([a, a, b], 2) == [a, a];
    assert Truncated(lists, 2) == [[a, a]];
    assert Concat([[a, a, b]]) == [a, a, b] && Concat([[a, a]]) == [a, a];
    assert [a, a][..1] == [a] && [a, a, b][..2] == [a, a] && [a][..0] == [];
    assert Extend([], [a]) == [a];
    assert Extend([], [a, a]) == [a];
    assert Extend([], [a, a, b]) == [a, b];
  }

  // ----- The router's channels -----

  datatype Channel = Channel(name: string, priority: int, knowledgeTypes: seq<string>, domains: seq<string>,
                             ontologyPaths: seq<string>, knowledgeOrigins: seq<string>, evidenceLevels: seq<string>)

  /** `plan`: four evidence channels for a question about attention, else one general channel. */
  function Plan(attention: bool, domains: seq<string>): seq<Channel>
  {
    if !attention then [Channel("general-reviewed-knowledge", 1, [], domains, [], [], [])]
    else
      [Channel("psychology-evidence", 1, ["evidence", "psychology"], domains, [],
               ["scientific_evidence"], ["review", "empirical"]),
       Channel("misdirection-principles", 2, ["psychology", "performance"], domains,
               ["misdirection.spatial", "misdirection.temporal", "misdirection.social",
                "misdirection.cognitive", "misdirection.emotional"], [], []),
       Channel("practitioner-applications", 3, ["performance"], domains, [], ["expert_practice"], ["practitioner"]),
       Channel("technique-examples", 4, ["technique"], domains, [], [], [])]
  }

  /** The offers of one channel's results. */
  function Offers(priority: int, results: seq<Result>): seq<Candidate>
  {
    seq(|results|, i requires 0 <= i < |results| => Candidate(priority, results[i]))
  }

  function AllOffers(plan: seq<Channel>, results: seq<seq<Result>>): seq<seq<Candidate>>
    requires |plan| == |results|
  {
    seq(|plan|, i requires 0 <= i < |plan| => Offers(plan[i].priority, results[i]))
  }

  predicate Descending(rs: seq<Result>)
  {
    forall i, j :: 0 <= i < j < |rs| ==> rs[i].score >= rs[j].score
  }

  predicate DistinctResults(rs: seq<Result>)
  {
    forall i, j :: 0 <= i < j < |rs| ==> Identity(rs[i]) != Identity(rs[j])
  }

  ghost predicate Ascending(plan: seq<Channel>)
  {
    forall i, j :: 0 <= i < j < |plan| ==> plan[i].priority < plan[j].priority
  }

  lemma PlanIsAscending(attention: bool, domains: seq<string>)
    ensures Ascending(Plan(attention, domains))
  {
  }

  lemma {:induction false} ConcatMembers(lists: seq<seq<Candidate>>, c: Candidate)
    requires c in Concat(lists)
    ensures exists i :: 0 <= i < |lists| && c in lists[i]
  {
    if c in lists[|lists| - 1] {
    } else {
      ConcatMembers(lists[..|lists| - 1], c);
      var i :| 0 <= i < |lists| - 1 && c in lists[..|lists| - 1][i];
      assert c in lists[i];
    }
  }

  /** Ascending priorities and descending scores put all offers, channel after channel, in rank order. */
  lemma {:induction false} ChannelsAreRanked(plan: seq<Channel>, results: seq<seq<Result>>)
    requires |plan| == |results| && Ascending(plan)
    requires forall i :: 0 <= i < |results| ==> Descending(results[i])
    ensures Ordering.Sorted(Concat(AllOffers(plan, results)), NotWorse())
  {
    if plan != [] {
      var n := |plan| - 1;
      var before, last := Concat(AllOffers(plan[..n], results[..n])), Offers(plan[n].priority, results[n]);
      ChannelsAreRanked(plan[..n], results[..n]);
      assert AllOffers(plan, results)[..n] == AllOffers(plan[..n], results[..n]);
      forall a, b | a in before && b in last ensures NotWorse()(a, b) {
        ConcatMembers(AllOffers(plan[..n], results[..n]), a);
        var i :| 0 <= i < n && a in AllOffers(plan[..n], results[..n])[i];
        assert a.priority == plan[i].priority;
      }
      JoinSorted(before, last);
    }
  }

  lemma JoinSorted(xs: seq<Candidate>, ys: seq<Candidate>)
    requires Ordering.Sorted(xs, NotWorse()) && Ordering.Sorted(ys, NotWorse())
    requires forall a, b :: a in xs && b in ys ==> NotWorse()(a, b)
    ensures Ordering.Sorted(xs + ys, NotWorse())
  {
    hide Better;
  }

  /** The first `k` results of every channel, as `search_documents(limit = k)` returns them. */
  function FirstK(results: seq<seq<Result>>, k: nat): seq<seq<Result>>
  {
    seq(|results|, i requires 0 <= i < |results| => Take(results[i], k))
  }

  /**
   The router's channels, each asked for `k` results only: the fused answer is the first `k` of all the
   channels' untruncated lists, one after the other, without repeats.
   */
  lemma RetrieveIsFirstK(attention: bool, domains: seq<string>, results: seq<seq<Result>>, k: nat)
    requires |results| == |Plan(attention, domains)|
    requires forall i :: 0 <= i < |results| ==> Descending(results[i]) && DistinctResults(results[i])
    ensures Fuse(Concat(AllOffers(Plan(attention, domains), FirstK(results, k))), k)
         == Take(Extend([], Concat(AllOffers(Plan(attention, domains), results))), k)
  {
    hide Plan, Identity, Fuse;
    var plan := Plan(attention, domains);
    PlanIsAscending(attention, domains);
    var full, short := AllOffers(plan, results), AllOffers(plan, FirstK(results, k));
    ChannelsAreRanked(plan, FirstK(results, k));
    FusionRefinesFirsts(Concat(short), k);
    forall i | 0 <= i < |full| ensures short[i] == Truncated(full, k)[i] {
      assert Offers(plan[i].priority, Take(results[i], k)) == Take(Offers(plan[i].priority, results[i]), k);
    }
    assert short == Truncated(full, k);
    TruncationIsLossless(full, k);
  }

  // ----- The loop -----

  lemma NothingOffered()
    ensures OfferAll([]) == Ranked([], map[]) && Concat([]) == []
  {
  }

  lemma OfferOneMore(before: seq<Candidate>, offers: seq<Candidate>, k: nat)
    requires k < |offers|
    ensures OfferAll(before + offers[..k + 1]) == Offer(OfferAll(before + offers[..k]), offers[k])
  {
    hide Offer;
    var upto := before + offers[..k + 1];
    assert upto[..|upto| - 1] == before + offers[..k] && upto[|upto| - 1] == offers[k];
  }

  lemma ConcatOneMore(lists: seq<seq<Candidate>>, i: nat)
    requires i < |lists|
    ensures Concat(lists[..i + 1]) == Concat(lists[..i]) + lists[i]
  {
    assert lists[..i + 1][..i] == lists[..i];
  }

  /** `_retrieve` after its channel queries: `found[i]` is what channel `i` returned. */
  method Retrieve(plan: seq<Channel>, found: seq<seq<Result>>, limit: nat) returns (r: seq<Candidate>)
    requires |plan| == |found|
    ensures r == Fuse(Concat(AllOffers(plan, found)), limit)
  {
    hide Offer, OfferAll, Concat, Id, Coherent, NotWorse;
    NothingOffered();
    var ranked := Ranked([], map[]);
    var all := AllOffers(plan, found);
    for i := 0 to |plan|
      invariant ranked == OfferAll(Concat(all[..i]))
    {
      ConcatOneMore(all, i);
      var before := Concat(all[..i]);
      assert before + all[i][..0] == before;
      for k := 0 to |found[i]|
        invariant ranked == OfferAll(before + all[i][..k])
      {
        OfferOneMore(before, all[i], k);
        ranked := OfferTo(ranked, Candidate(plan[i].priority, found[i][k]));
      }
      assert all[i][..|found[i]|] == all[i];
    }
    assert all[..|plan|] == all;
    var sorted := Ordering.StableSort(Values(ranked), NotWorse());
    r := Take(sorted, limit);
  }

  /** The dictionary update of the inner loop. */
  method OfferTo(ranked: Ranked, c: Candidate) returns (r: Ranked)
    ensures r == Offer(ranked, c)
  {
    r := ranked;
    if Id(c) !in ranked.best {
      r := Ranked(ranked.order + [Id(c)], ranked.best[Id(c) := c]);
    } else if Better(c, ranked.best[Id(c)]) {
      r := r.(best := ranked.best[Id(c) := c]);
    }
  }
}
