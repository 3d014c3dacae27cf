/** Cost before warmth: the ranking of workers for one placement. */
module Ranking {
  import opened Sorting

  datatype Candidate = Candidate(workerId: string, costRank: int, askUsdHr: real, warmPrefixDepth: int, warmModel: bool)

  function Tier(c: Candidate): (int, real) {
    (c.costRank, c.askUsdHr)
  }

  predicate TierLe(a: (int, real), b: (int, real)) {
    a.0 < b.0 || (a.0 == b.0 && a.1 <= b.1)
  }

  /** The order of equal cost and ask: deeper prefix, then warm model, then worker id. */
  predicate WarmthLe(a: Candidate, b: Candidate) {
    || a.warmPrefixDepth > b.warmPrefixDepth
    || (a.warmPrefixDepth == b.warmPrefixDepth
        && ((a.warmModel && !b.warmModel) || (a.warmModel == b.warmModel && TextLe(a.workerId, b.workerId))))
  }

  predicate KeyLe(a: Candidate, b: Candidate) {
    if Tier(a) == Tier(b) then WarmthLe(a, b) else TierLe(Tier(a), Tier(b))
  }

  function Rank(cands: seq<Candidate>): seq<Candidate> {
    Sort(cands, KeyLe)
  }

  lemma KeyLeIsTotal()
    ensures TotalOrder(KeyLe)
  {
    forall a, b ensures KeyLe(a, b) || KeyLe(b, a) { TextLeTotal(a.workerId, b.workerId); }
    forall a, b, c | KeyLe(a, b) && KeyLe(b, c) ensures KeyLe(a, c) {
      if TextLe(a.workerId, b.workerId) && TextLe(b.workerId, c.workerId) {
        TextLeTransitive(a.workerId, b.workerId, c.workerId);
      }
    }
  }

  lemma TierLeIsTotal()
    ensures TotalOrder(TierLe)
  {
  }

  /** Ranking is a permutation, in order, and its winner has the least cost rank and then the least ask. */
  lemma WinnerIsCheapest(cands: seq<Candidate>)
    ensures multiset(Rank(cands)) == multiset(cands) && SortedBy(Rank(cands), KeyLe)
    ensures forall c | c in cands :: TierLe(Tier(Rank(cands)[0]), Tier(c))
  {
    KeyLeIsTotal();
    SortPermutes(cands, KeyLe);
    SortSorts(cands, KeyLe);
    var r := Rank(cands);
    forall c | c in cands ensures TierLe(Tier(r[0]), Tier(c)) {
      assert c in multiset(cands) && c in multiset(r);
      var i :| 0 <= i < |r| && r[i] == c;
      assert i == 0 || KeyLe(r[0], r[i]);
    }
  }

  // ---------------------------------------------------------------- warmth never moves a tier

  function Tiers(cands: seq<Candidate>): (r: seq<(int, real)>)
    ensures |r| == |cands|
  {
    seq(|cands|, i requires 0 <= i < |cands| => Tier(cands[i]))
  }

  lemma TiersSnoc(s: seq<Candidate>, x: Candidate)
    ensures Tiers(s + [x]) == Tiers(s) + [Tier(x)]
  {
  }

  lemma {:induction false} TiersOfInsert(x: Candidate, s: seq<Candidate>)
    ensures multiset(Tiers(Insert(x, s, KeyLe))) == multiset(Tiers(s)) + multiset{Tier(x)}
  {
    TiersSnoc(s, x);
    if s != [] && !KeyLe(s[|s| - 1], x) {
      var rest, last := s[..|s| - 1], s[|s| - 1];
      TiersOfInsert(x, rest);
      TiersSnoc(Insert(x, rest, KeyLe), last);
      TiersSnoc(rest, last);
      assert s == rest + [last];
    }
  }

  lemma {:induction false} TiersOfRank(cands: seq<Candidate>)
    ensures multiset(Tiers(Rank(cands))) == multiset(Tiers(cands))
  {
    if cands != [] {
      var rest, last := cands[..|cands| - 1], cands[|cands| - 1];
      TiersOfRank(rest);
      TiersOfInsert(last, Rank(rest));
      TiersSnoc(rest, last);
      assert cands == rest + [last];
    }
  }

  lemma RankedTiersSorted(cands: seq<Candidate>)
    ensures SortedBy(Tiers(Rank(cands)), TierLe)
  {
    KeyLeIsTotal();
    SortSorts(cands, KeyLe);
    var r := Rank(cands);
    forall i, j | 0 <= i < j < |r| ensures TierLe(Tiers(r)[i], Tiers(r)[j]) {
      assert KeyLe(r[i], r[j]);
    }
  }

  /** Changing the warmth of any candidates (and their order) leaves the ranked list of costs and asks, the
      winner's included, exactly as it was: warmth only reorders candidates of equal cost and ask. */
  lemma WarmthNeverMovesATier(cands: seq<Candidate>, cands': seq<Candidate>)
    requires multiset(Tiers(cands)) == multiset(Tiers(cands'))
    ensures Tiers(Rank(cands)) == Tiers(Rank(cands'))
  {
    TiersOfRank(cands);
    TiersOfRank(cands');
    RankedTiersSorted(cands);
    RankedTiersSorted(cands');
    TierLeIsTotal();
    SortedIsUnique(Tiers(Rank(cands)), Tiers(Rank(cands')), multiset(Tiers(cands)), TierLe);
  }

  /** With distinct worker ids the ranking does not depend on the order of the input. */
  lemma RankIgnoresInputOrder(cands: seq<Candidate>, cands': seq<Candidate>)
    requires multiset(cands) == multiset(cands')
    requires forall i, j | 0 <= i < j < |cands| :: cands[i].workerId != cands[j].workerId
    ensures Rank(cands) == Rank(cands')
  {
    DistinctIdsSeparate(cands);
    KeyLeIsTotal();
    SortPermutes(cands, KeyLe);
    SortPermutes(cands', KeyLe);
    SortSorts(cands, KeyLe);
    SortSorts(cands', KeyLe);
    SortedIsUnique(Rank(cands), Rank(cands'), multiset(cands), KeyLe);
  }

  lemma DistinctIdsSeparate(cands: seq<Candidate>)
    requires forall i, j | 0 <= i < j < |cands| :: cands[i].workerId != cands[j].workerId
    ensures AntisymmetricOn(multiset(cands), KeyLe)
  {
    forall x, y | x in multiset(cands) && y in multiset(cands) && KeyLe(x, y) && KeyLe(y, x) ensures x == y {
      SameKeySameId(x, y);
      var i :| 0 <= i < |cands| && cands[i] == x;
      var j :| 0 <= j < |cands| && cands[j] == y;
    }
  }

  lemma SameKeySameId(x: Candidate, y: Candidate)
    requires KeyLe(x, y) && KeyLe(y, x)
    ensures x.workerId == y.workerId
  {
    TextLeTotal(x.workerId, y.workerId);
  }

  /** Among the candidates of its cost and ask the winner has the deepest warm prefix, then a warm model if any
      has, and then the first worker id. */
  lemma WarmestWinsItsTier(cands: seq<Candidate>, c: Candidate)
    requires c in cands && Tier(c) == Tier(Rank(cands)[0])
    ensures var w := Rank(cands)[0];
            && w.warmPrefixDepth >= c.warmPrefixDepth
            && (w.warmPrefixDepth == c.warmPrefixDepth ==> (c.warmModel ==> w.warmModel))
            && (w.warmPrefixDepth == c.warmPrefixDepth && w.warmModel == c.warmModel ==>
                  TextLe(w.workerId, c.workerId))
  {
    WinnerIsCheapest(cands);
    var r := Rank(cands);
    assert c in multiset(cands) && c in multiset(r);
    var i :| 0 <= i < |r| && r[i] == c;
    KeyLeIsTotal();
    assert KeyLe(r[0], r[i]);
  }
}
