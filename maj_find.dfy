/**
  The structural MAJ-3 detector of lsvMajFind.cpp: recognising a
  "complementary gate", matching the AIG encoding of a three-input majority
  gate at one node, and counting the matches over a network.
 */
module MajFind {
  import opened Aig
  import opened Basics

  /**
    The literals reported for a match, as printed in `id = MAJ(x, y, z)`: a
    literal is an object id, negated when the literal is complemented.
   */
  datatype Triple = Triple(x: int, y: int, z: int)

  /** Sign encoding of a literal: the id, negated when it is complemented. */
  function Signed(id: nat, compl: bool): int {
    var v: int := id;
    if compl then -v else v
  }

  /** The object id a sign-encoded literal names. */
  function IdOf(l: int): nat {
    if l < 0 then -l else l
  }

  /** Every entry of `t` is 0 or names an object that has a value. */
  predicate NamesSignals(g: Network, t: Triple) {
    && (t.x == 0 || IsSignal(g, IdOf(t.x)))
    && (t.y == 0 || IsSignal(g, IdOf(t.y)))
    && (t.z == 0 || IsSignal(g, IdOf(t.z)))
  }

  /**
    `p` and `q` have the same fanin pair, in the same or in swapped order, and
    every complement bit of `q` is the opposite of the bit on the matching
    fanin of `p`; so `q` is the AND of the negations of `p`'s fanin literals.
   */
  predicate Complementary(p: Node, q: Node) {
    && p.And? && q.And?
    && ((p.f0 == q.f0 && p.f1 == q.f1 && p.c0 != q.c0 && p.c1 != q.c1)
        || (p.f0 == q.f1 && p.f1 == q.f0 && p.c0 != q.c1 && p.c1 != q.c0))
  }

  /**
    Lsv_isCompGate. Neither argument is a primary output: in a well-formed
    network both are fanins of AND nodes.
   */
  function IsCompGate(p: Node, q: Node): (r: bool)
    requires !p.Po? && !q.Po?
    ensures r ==> Complementary(p, q)
    ensures FaninNum(p) == 0 || FaninNum(q) == 0 ==> !r
  {
    if FaninNum(p) == 0 || FaninNum(q) == 0 then false
    else if p.f0 == q.f0 && p.f1 == q.f1 then
      (p.c0 != q.c0) && (p.c1 != q.c1)
    else if p.f0 == q.f1 && p.f1 == q.f0 then
      (p.c0 != q.c1) && (p.c1 != q.c0)
    else false
  }

  /**
    Lsv_isCompGate decides complementarity exactly for AND nodes whose two
    fanins differ, which is every AND node of a structurally hashed network.
   */
  lemma IsCompGateExact(p: Node, q: Node)
    requires p.And? && q.And? && p.f0 != p.f1
    ensures IsCompGate(p, q) <==> Complementary(p, q)
  {
  }

  /**
    Branch order of Lsv_isCompGate: when the fanin pairs are equal in order,
    only the in-order complement bits are compared. So `AND(1, NOT 1)`
    (fanin 1 in both slots) is complementary to itself through the swapped
    pairing, but Lsv_isCompGate rejects it.
   */
  lemma IsCompGateInOrderFirst()
    ensures var p := And(1, true, 1, false);
            Complementary(p, p) && !IsCompGate(p, p)
  {
  }

  /**
    What a matched pattern reports. `g6` is the fanin of the node whose fanin
    in slot `s` is `g5`; when that edge is complemented, the literals are
    the negation of `g6`'s other fanin literal and `g5`'s two fanin literals;
    otherwise the three locals stay 0.
   */
  function Report(g: Network, g6: nat, s: Slot): (r: Triple)
    requires Wf(g) && g6 < |g.objs| && g.objs[g6].And?
    requires g.objs[Fanin(g.objs[g6], s)].And?
    ensures !FaninC(g.objs[g6], s) ==> r == Triple(0, 0, 0)
    ensures FaninC(g.objs[g6], s) && Fanin(g.objs[g6], s.Other()) > 0
            && g.objs[Fanin(g.objs[g6], s)].f0 > 0 && g.objs[Fanin(g.objs[g6], s)].f1 > 0
            ==> r.x != 0 && r.y != 0 && r.z != 0
    ensures NamesSignals(g, r)
  {
    var n6 := g.objs[g6];
    var n5 := g.objs[Fanin(n6, s)];
    var a := if FaninC(n6, s) then Signed(Fanin(n6, s.Other()), FaninC(n6, s.Other())) else 0;
    var b := if FaninC(n6, s) then Signed(n5.f0, !n5.c0) else 0;
    var c := if FaninC(n6, s) then Signed(n5.f1, !n5.c1) else 0;
    Triple(-a, -b, -c)
  }

  /**
    The guard of Lsv_isMajGate: an AND node whose two fanin edges are
    complemented and whose two fanins are AND nodes.
   */
  predicate MajShape(g: Network, id: nat)
    requires id < |g.objs|
  {
    var n := g.objs[id];
    && n.And? && n.c0 && n.c1
    && n.f0 < |g.objs| && g.objs[n.f0].And?
    && n.f1 < |g.objs| && g.objs[n.f1].And?
  }

  /**
    Lsv_isMajGate: `None` where Lsv_isMajGate returns false, `Some` of the
    printed literal triple where it returns true. The four patterns are
    tried in the order of lsvMajFind.cpp and the first that matches decides.
   */
  function MajGate(g: Network, id: nat): (r: Option<Triple>)
    requires Wf(g) && id < |g.objs|
    ensures r.Some? ==> MajShape(g, id)
    ensures r.Some? ==> NamesSignals(g, r.value)
  {
    var n := g.objs[id];
    if !ComplBit0(n) || !ComplBit1(n) then None
    else
      var fanin0 := g.objs[n.f0];
      var fanin1 := g.objs[n.f1];
      if FaninNum(fanin0) == 0 || FaninNum(fanin1) == 0 then None
      else if IsCompGate(g.objs[fanin0.f0], fanin1) then Some(Report(g, n.f0, S0))
      else if IsCompGate(g.objs[fanin0.f1], fanin1) then Some(Report(g, n.f0, S1))
      else if IsCompGate(g.objs[fanin1.f0], fanin0) then Some(Report(g, n.f1, S0))
      else if IsCompGate(g.objs[fanin1.f1], fanin0) then Some(Report(g, n.f1, S1))
      else None
  }

  /**
    One of the four candidate patterns at a node: `g6` is a fanin of the
    node, `s` the slot of `g6` holding the candidate `g5`, and `other` the
    node's remaining fanin, which must be complementary to `g5`.
   */
  datatype Pattern = Pattern(g6: nat, s: Slot, other: nat)

  /** The candidate's nodes exist: `g6` is an AND node and `other` has a value. */
  predicate PatternOk(g: Network, p: Pattern) {
    p.g6 < |g.objs| && g.objs[p.g6].And? && IsSignal(g, p.other)
  }

  /** The four candidates in the order Lsv_isMajGate tries them. */
  function Candidates(n: Node): (ps: seq<Pattern>)
    requires n.And?
    ensures |ps| == 4
    ensures forall k | 0 <= k < 4 ::
              (ps[k].g6 == n.f0 && ps[k].other == n.f1) || (ps[k].g6 == n.f1 && ps[k].other == n.f0)
  {
    [Pattern(n.f0, S0, n.f1), Pattern(n.f0, S1, n.f1), Pattern(n.f1, S0, n.f0), Pattern(n.f1, S1, n.f0)]
  }

  /** Candidate `p` matches: the fanin of `g6` in slot `s` is a complementary gate of `other`. */
  predicate Matches(g: Network, p: Pattern)
    requires Wf(g) && PatternOk(g, p)
  {
    IsCompGate(g.objs[Fanin(g.objs[p.g6], p.s)], g.objs[p.other])
  }

  /** What each candidate of `ps` would yield on its own: its report if it matches. */
  function CandidateResults(g: Network, ps: seq<Pattern>): seq<Option<Triple>>
    requires Wf(g) && forall k | 0 <= k < |ps| :: PatternOk(g, ps[k])
  {
    seq(|ps|, k requires 0 <= k < |ps| =>
      if Matches(g, ps[k]) then Some(Report(g, ps[k].g6, ps[k].s)) else None)
  }

  /** The four candidates' results, written out with the fanins of the node. */
  lemma CandidateResultsAt(g: Network, id: nat)
    requires Wf(g) && id < |g.objs| && MajShape(g, id)
    ensures forall k | 0 <= k < 4 :: PatternOk(g, Candidates(g.objs[id])[k])
    ensures var n := g.objs[id];
            var fanin0, fanin1 := g.objs[n.f0], g.objs[n.f1];
            var os := CandidateResults(g, Candidates(n));
            && os[0] == (if IsCompGate(g.objs[fanin0.f0], fanin1) then Some(Report(g, n.f0, S0)) else None)
            && os[1] == (if IsCompGate(g.objs[fanin0.f1], fanin1) then Some(Report(g, n.f0, S1)) else None)
            && os[2] == (if IsCompGate(g.objs[fanin1.f0], fanin0) then Some(Report(g, n.f1, S0)) else None)
            && os[3] == (if IsCompGate(g.objs[fanin1.f1], fanin0) then Some(Report(g, n.f1, S1)) else None)
  {
  }

  /** FirstSome over four entries is the first present one. */
  lemma FirstSomeOfFour<T>(os: seq<Option<T>>)
    requires |os| == 4
    ensures FirstSome(os, 0) ==
              if os[0].Some? then os[0] else if os[1].Some? then os[1]
              else if os[2].Some? then os[2] else os[3]
  {
    assert FirstSome(os, 4) == None;
    assert FirstSome(os, 3) == os[3];
    assert FirstSome(os, 2) == if os[2].Some? then os[2] else os[3];
    assert FirstSome(os, 1) == if os[1].Some? then os[1] else FirstSome(os, 2);
  }

  /**
    Branch order of Lsv_isMajGate: at a node of the right shape the result is
    the first present entry of the four candidates' results, in the order
    Lsv_isMajGate tries them.
   */
  lemma MajGateIsFirstMatch(g: Network, id: nat)
    requires Wf(g) && id < |g.objs| && MajShape(g, id)
    ensures forall k | 0 <= k < 4 :: PatternOk(g, Candidates(g.objs[id])[k])
    ensures MajGate(g, id) == FirstSome(CandidateResults(g, Candidates(g.objs[id])), 0)
  {
    CandidateResultsAt(g, id);
    FirstSomeOfFour(CandidateResults(g, Candidates(g.objs[id])));
  }

  /**
    At a node of the right shape Lsv_isMajGate returns false exactly when
    none of the four candidates matches.
   */
  lemma MajGateNoneIff(g: Network, id: nat)
    requires Wf(g) && id < |g.objs| && MajShape(g, id)
    ensures forall k | 0 <= k < 4 :: PatternOk(g, Candidates(g.objs[id])[k])
    ensures MajGate(g, id).None? <==> forall k | 0 <= k < 4 :: !Matches(g, Candidates(g.objs[id])[k])
  {
    MajGateIsFirstMatch(g, id);
    FirstSomeNone(CandidateResults(g, Candidates(g.objs[id])), 0);
  }

  /**
    At a node of the right shape, when candidate `k` is the first that
    matches, Lsv_isMajGate reports that candidate.
   */
  lemma MajGateFirstMatch(g: Network, id: nat, k: nat)
    requires Wf(g) && id < |g.objs| && MajShape(g, id) && k < 4
    requires Matches(g, Candidates(g.objs[id])[k])
    requires forall j | 0 <= j < k :: !Matches(g, Candidates(g.objs[id])[j])
    ensures var p := Candidates(g.objs[id])[k];
            MajGate(g, id) == Some(Report(g, p.g6, p.s))
  {
    MajGateIsFirstMatch(g, id);
    FirstSomeIsFirst(CandidateResults(g, Candidates(g.objs[id])), 0, k);
  }

  /** Lsv_isMajGate on a primary output is always false: its second complement bit is never set. */
  lemma PoIsNeverMaj(g: Network, id: nat)
    requires Wf(g) && id < |g.objs| && g.objs[id].Po?
    ensures MajGate(g, id) == None
  {
  }

  /** An AND node that Lsv_isMajGate accepts (what the first loop of Lsv_NtkMajFind counts). */
  predicate IsMajAnd(g: Network, i: nat)
    requires Wf(g) && i < |g.objs|
  {
    g.objs[i].And? && MajGate(g, i).Some?
  }

  /** Per object id: whether the first loop of Lsv_NtkMajFind counts it. */
  function AndFlags(g: Network): seq<bool>
    requires Wf(g)
  {
    seq(|g.objs|, i requires 0 <= i < |g.objs| => IsMajAnd(g, i))
  }

  /** Per entry of `pos`: whether the second loop of Lsv_NtkMajFind counts it. */
  function PoFlags(g: Network): seq<bool>
    requires Wf(g)
  {
    seq(|g.pos|, k requires 0 <= k < |g.pos| => MajGate(g, g.pos[k]).Some?)
  }

  /** Per object id: whether it is an AND node. */
  function KindFlags(g: Network): seq<bool>
  {
    seq(|g.objs|, i requires 0 <= i < |g.objs| => g.objs[i].And?)
  }

  /** Number of AND nodes in the network. */
  function NumAnd(g: Network): nat {
    CountTrue(KindFlags(g), |g.objs|)
  }

  /** The value Lsv_NtkMajFind prints as the total. */
  function MajCount(g: Network): nat
    requires Wf(g)
  {
    CountTrue(AndFlags(g), |g.objs|) + CountTrue(PoFlags(g), |g.pos|)
  }

  /** The ids of the accepted AND nodes. */
  function MajAndIds(g: Network): set<nat>
    requires Wf(g)
  {
    set i: nat | i < |g.objs| && IsMajAnd(g, i)
  }

  /**
    The total counts exactly the accepted AND nodes, the primary-output loop
    adding nothing, and so it is at most #AND + #PO.
   */
  lemma MajCountMeaning(g: Network)
    requires Wf(g)
    ensures CountTrue(PoFlags(g), |g.pos|) == 0
    ensures MajCount(g) == |MajAndIds(g)|
    ensures MajCount(g) <= NumAnd(g) + |g.pos|
  {
    var fs, ps := AndFlags(g), PoFlags(g);
    forall k | 0 <= k < |g.pos| ensures !ps[k] {
      PoIsNeverMaj(g, g.pos[k]);
    }
    CountTrueNone(ps, |g.pos|);
    CountTrueIsCard(fs, |g.objs|);
    assert MajAndIds(g) == TrueBelow(fs, |g.objs|);
    CountTrueMonotone(fs, KindFlags(g), |g.objs|);
  }

  /**
    Lsv_NtkMajFind: count the AND nodes, in id order, and then the primary
    outputs, in output order, that Lsv_isMajGate accepts; the total it prints
    is returned.
   */
  method NtkMajFind(g: Network) returns (totalMaj: int)
    requires Wf(g)
    ensures totalMaj == MajCount(g)
    ensures totalMaj == |MajAndIds(g)|
    ensures totalMaj <= NumAnd(g) + |g.pos|
  {
    ghost var fs, ps := AndFlags(g), PoFlags(g);
    totalMaj := 0;
    for i := 0 to |g.objs|
      invariant totalMaj == CountTrue(fs, i)
    {
      if g.objs[i].And? {
        var r := MajGate(g, i);
        if r.Some? {
          totalMaj := totalMaj + 1;
        }
      }
    }
    for k := 0 to |g.pos|
      invariant totalMaj == CountTrue(fs, |g.objs|) + CountTrue(ps, k)
    {
      var r := MajGate(g, g.pos[k]);
      if r.Some? {
        totalMaj := totalMaj + 1;
      }
    }
    MajCountMeaning(g);
  }
}
