/**
 * `find_trajectory_files`: choosing the topology (`.prmtop`) and the
 * trajectory (`.nc`) in a `gbsa` directory by trying ordered lists of
 * wildcard patterns, the first pattern with an acceptable match winning.
 */
module Locator {
  import opened Common
  import opened Text
  import opened Glob

  const TopologySuffix := ".prmtop"
  const TrajectorySuffix := ".nc"

  /** The topology file written for mutation `m` by the preparation step, tried first. */
  function ExactTopology(m: string): string {
    "strip.1xjv_POT1_ssDNA-" + m + "_wat" + TopologySuffix
  }

  /** Topology patterns, most specific first. */
  function TopologyPatterns(m: string): seq<string> {
    [ ExactTopology(m),
      "1xjv_POT1_ssDNA-" + m + "_wat" + TopologySuffix,
      m + "_wat" + TopologySuffix,
      "strip.*" + TopologySuffix,
      "*" + TopologySuffix ]
  }

  /** Trajectory patterns, most specific first. */
  function TrajectoryPatterns(m: string): seq<string> {
    [ "1xjv_POT1_ssDNA-" + m + "_wat_imaged_*" + TrajectorySuffix,
      "*" + m + "*" + TrajectorySuffix,
      "*" + TrajectorySuffix ]
  }

  /** A trajectory candidate is kept when it is not an "AF-" output and is a gbsa or imaged trajectory. */
  predicate Admissible(name: string) {
    !Contains(name, "AF-") && (Contains(name, "gbsa") || Contains(name, "imaged"))
  }

  /** The admissible names, in their order. */
  function Admissibles(names: seq<string>): (r: seq<string>)
    ensures forall k | 0 <= k < |r| :: Admissible(r[k]) && r[k] in names
    ensures forall n | n in names && Admissible(n) :: n in r
  {
    if names == [] then []
    else (if Admissible(names[0]) then [names[0]] else []) + Admissibles(names[1..])
  }

  /** `listing[j]` is the first listed name that matches `pattern` and is admissible. */
  predicate FirstListedAdmissible(pattern: string, listing: seq<string>, j: int) {
    && 0 <= j < |listing| && Match(pattern, listing[j]) && Admissible(listing[j])
    && forall i | 0 <= i < j :: !(Match(pattern, listing[i]) && Admissible(listing[i]))
  }

  lemma AdmissiblesAppend(a: seq<string>, b: seq<string>)
    ensures Admissibles(a + b) == Admissibles(a) + Admissibles(b)
  {
    if a != [] {
      assert (a + b)[1..] == a[1..] + b;
      AdmissiblesAppend(a[1..], b);
    } else {
      assert a + b == b;
    }
  }

  /** The matches of `pattern` that are admissible, peeled off at the first listed name. */
  lemma AdmissibleMatchesCons(pattern: string, listing: seq<string>)
    requires listing != []
    ensures Admissibles(Matches(pattern, listing)) ==
      (if Match(pattern, listing[0]) && Admissible(listing[0]) then [listing[0]] else [])
      + Admissibles(Matches(pattern, listing[1..]))
  {
    var head := if Match(pattern, listing[0]) then [listing[0]] else [];
    AdmissiblesAppend(head, Matches(pattern, listing[1..]));
  }

  /** The filtered glob result keeps the listing order: its head is the first listed admissible match. */
  lemma {:induction false} AdmissibleMatchesHead(pattern: string, listing: seq<string>, j: int)
    requires FirstListedAdmissible(pattern, listing, j)
    ensures Admissibles(Matches(pattern, listing)) != [] && Admissibles(Matches(pattern, listing))[0] == listing[j]
  {
    AdmissibleMatchesCons(pattern, listing);
    if j > 0 {
      assert FirstListedAdmissible(pattern, listing[1..], j - 1) by {
        assert forall i | 0 <= i < j - 1 :: listing[1..][i] == listing[i + 1];
      }
      AdmissibleMatchesHead(pattern, listing[1..], j - 1);
    }
  }

  /** A non-empty filtered glob result starts with the first listed admissible match. */
  lemma {:induction false} AdmissibleMatchesHeadListed(pattern: string, listing: seq<string>)
    requires Admissibles(Matches(pattern, listing)) != []
    ensures exists j :: FirstListedAdmissible(pattern, listing, j) && Admissibles(Matches(pattern, listing))[0] == listing[j]
  {
    AdmissibleMatchesCons(pattern, listing);
    if Match(pattern, listing[0]) && Admissible(listing[0]) {
      assert FirstListedAdmissible(pattern, listing, 0);
    } else {
      AdmissibleMatchesHeadListed(pattern, listing[1..]);
      var j :| FirstListedAdmissible(pattern, listing[1..], j)
               && Admissibles(Matches(pattern, listing[1..]))[0] == listing[1..][j];
      assert FirstListedAdmissible(pattern, listing, j + 1) by {
        forall i | 1 <= i < j + 1
          ensures !(Match(pattern, listing[i]) && Admissible(listing[i]))
        {
          assert listing[i] == listing[1..][i - 1];
        }
      }
    }
  }

  /** The first match of the earliest pattern that has any match. */
  function FirstMatch(patterns: seq<string>, listing: seq<string>): Option<string> {
    if patterns == [] then None
    else if Matches(patterns[0], listing) != [] then Some(Matches(patterns[0], listing)[0])
    else FirstMatch(patterns[1..], listing)
  }

  /** The first admissible match of the earliest pattern that has an admissible match. */
  function FirstAdmissibleMatch(patterns: seq<string>, listing: seq<string>): Option<string> {
    if patterns == [] then None
    else if Admissibles(Matches(patterns[0], listing)) != [] then Some(Admissibles(Matches(patterns[0], listing))[0])
    else FirstAdmissibleMatch(patterns[1..], listing)
  }

  /**
   * The search itself: each pattern list is tried in order, stopping at the
   * first pattern whose (filtered) matches are not empty. `listing` is the
   * directory's entries in the order the directory yields them.
   */
  method FindTrajectoryFiles(listing: seq<string>, m: string) returns (prmtop: Option<string>, nc: Option<string>)
    ensures prmtop == FirstMatch(TopologyPatterns(m), listing)
    ensures nc == FirstAdmissibleMatch(TrajectoryPatterns(m), listing)
    ensures prmtop.Some? ==> prmtop.value in listing
    ensures nc.Some? ==> nc.value in listing && Admissible(nc.value)
  {
    var topologyPatterns := TopologyPatterns(m);
    prmtop := None;
    var k := 0;
    while k < |topologyPatterns|
      invariant 0 <= k <= |topologyPatterns|
      invariant FirstMatch(topologyPatterns[k..], listing) == FirstMatch(topologyPatterns, listing)
    {
      assert topologyPatterns[k..][1..] == topologyPatterns[k + 1..];
      var matches := Matches(topologyPatterns[k], listing);
      if matches != [] {
        prmtop := Some(matches[0]);
        break;
      }
      k := k + 1;
    }

    var trajectoryPatterns := TrajectoryPatterns(m);
    nc := None;
    k := 0;
    while k < |trajectoryPatterns|
      invariant 0 <= k <= |trajectoryPatterns|
      invariant FirstAdmissibleMatch(trajectoryPatterns[k..], listing) == FirstAdmissibleMatch(trajectoryPatterns, listing)
    {
      assert trajectoryPatterns[k..][1..] == trajectoryPatterns[k + 1..];
      var matches := Matches(trajectoryPatterns[k], listing);
      if matches != [] {
        matches := Admissibles(matches);
        if matches != [] {
          nc := Some(matches[0]);
          break;
        }
      }
      k := k + 1;
    }
  }

  // ---------------------------------------------------------------------
  // Precedence

  /** Pattern `k` is the earliest one with any match. */
  ghost predicate EarliestMatching(patterns: seq<string>, listing: seq<string>, k: int) {
    && 0 <= k < |patterns|
    && Matches(patterns[k], listing) != []
    && forall j | 0 <= j < k :: Matches(patterns[j], listing) == []
  }

  /**
   * The chosen name is the first listed match of the earliest pattern that
   * has a match, and there is none exactly when no pattern matches.
   */
  lemma {:induction false} FirstMatchPrecedence(patterns: seq<string>, listing: seq<string>)
    ensures FirstMatch(patterns, listing).None? <==> forall k | 0 <= k < |patterns| :: Matches(patterns[k], listing) == []
    ensures FirstMatch(patterns, listing).Some? ==>
      exists k :: EarliestMatching(patterns, listing, k) && FirstMatch(patterns, listing).value == Matches(patterns[k], listing)[0]
  {
    if patterns != [] {
      if Matches(patterns[0], listing) != [] {
        assert EarliestMatching(patterns, listing, 0);
      } else {
        FirstMatchPrecedence(patterns[1..], listing);
        assert forall k | 1 <= k < |patterns| :: patterns[k] == patterns[1..][k - 1];
        if FirstMatch(patterns[1..], listing).Some? {
          var k :| EarliestMatching(patterns[1..], listing, k)
                   && FirstMatch(patterns[1..], listing).value == Matches(patterns[1..][k], listing)[0];
          assert EarliestMatching(patterns, listing, k + 1);
        }
      }
    }
  }

  /** The chosen name is the first name in listing order that the earliest matching pattern matches. */
  lemma FirstMatchIsFirstListed(patterns: seq<string>, listing: seq<string>)
    ensures FirstMatch(patterns, listing).Some? ==>
      exists k, j :: EarliestMatching(patterns, listing, k) && FirstListedMatch(patterns[k], listing, j)
        && FirstMatch(patterns, listing).value == listing[j]
  {
    FirstMatchPrecedence(patterns, listing);
    if FirstMatch(patterns, listing).Some? {
      var k :| EarliestMatching(patterns, listing, k) && FirstMatch(patterns, listing).value == Matches(patterns[k], listing)[0];
      MatchesHeadListed(patterns[k], listing);
    }
  }

  /** Pattern `k` is the earliest one with an admissible match. */
  ghost predicate EarliestAdmissible(patterns: seq<string>, listing: seq<string>, k: int) {
    && 0 <= k < |patterns|
    && Admissibles(Matches(patterns[k], listing)) != []
    && forall j | 0 <= j < k :: Admissibles(Matches(patterns[j], listing)) == []
  }

  /**
   * A pattern whose matches are all filtered out does not stop the search:
   * the chosen name is the first admissible match of the earliest pattern
   * with one, and there is none exactly when no pattern has one.
   */
  lemma {:induction false} FirstAdmissiblePrecedence(patterns: seq<string>, listing: seq<string>)
    ensures FirstAdmissibleMatch(patterns, listing).None? <==>
      forall k | 0 <= k < |patterns| :: Admissibles(Matches(patterns[k], listing)) == []
    ensures FirstAdmissibleMatch(patterns, listing).Some? ==>
      exists k :: EarliestAdmissible(patterns, listing, k)
        && FirstAdmissibleMatch(patterns, listing).value == Admissibles(Matches(patterns[k], listing))[0]
  {
    if patterns != [] {
      if Admissibles(Matches(patterns[0], listing)) != [] {
        assert EarliestAdmissible(patterns, listing, 0);
      } else {
        FirstAdmissiblePrecedence(patterns[1..], listing);
        assert forall k | 1 <= k < |patterns| :: patterns[k] == patterns[1..][k - 1];
        if FirstAdmissibleMatch(patterns[1..], listing).Some? {
          var k :| EarliestAdmissible(patterns[1..], listing, k)
                   && FirstAdmissibleMatch(patterns[1..], listing).value == Admissibles(Matches(patterns[1..][k], listing))[0];
          assert EarliestAdmissible(patterns, listing, k + 1);
        }
      }
    }
  }

  /**
   * The chosen trajectory is the first name in listing order that the
   * earliest pattern with an admissible match matches and admits.
   */
  lemma FirstAdmissibleIsFirstListed(patterns: seq<string>, listing: seq<string>)
    ensures FirstAdmissibleMatch(patterns, listing).Some? ==>
      exists k, j :: EarliestAdmissible(patterns, listing, k) && FirstListedAdmissible(patterns[k], listing, j)
        && FirstAdmissibleMatch(patterns, listing).value == listing[j]
  {
    FirstAdmissiblePrecedence(patterns, listing);
    if FirstAdmissibleMatch(patterns, listing).Some? {
      var k :| EarliestAdmissible(patterns, listing, k)
               && FirstAdmissibleMatch(patterns, listing).value == Admissibles(Matches(patterns[k], listing))[0];
      AdmissibleMatchesHeadListed(patterns[k], listing);
    }
  }

  // ---------------------------------------------------------------------
  // The topology

  lemma TopologyPatternsEndWithSuffix(m: string)
    ensures forall k | 0 <= k < |TopologyPatterns(m)| ::
      exists p :: TopologyPatterns(m)[k] == p + TopologySuffix
  {
    var ps := TopologyPatterns(m);
    assert ps[0] == ("strip.1xjv_POT1_ssDNA-" + m + "_wat") + TopologySuffix;
    assert ps[1] == ("1xjv_POT1_ssDNA-" + m + "_wat") + TopologySuffix;
    assert ps[2] == (m + "_wat") + TopologySuffix;
    assert ps[3] == "strip.*" + TopologySuffix;
    assert ps[4] == "*" + TopologySuffix;
  }

  /**
   * A chosen topology is a listed `.prmtop` name, and none is chosen exactly
   * when no listed name ends in `.prmtop`.
   */
  lemma TopologyChoice(listing: seq<string>, m: string)
    ensures var prmtop := FirstMatch(TopologyPatterns(m), listing);
      && (prmtop.Some? ==> prmtop.value in listing && EndsWith(prmtop.value, TopologySuffix))
      && (prmtop.None? <==> forall n | n in listing :: !EndsWith(n, TopologySuffix))
  {
    var ps := TopologyPatterns(m);
    FirstMatchPrecedence(ps, listing);
    TopologyPatternsEndWithSuffix(m);
    assert NoStar(TopologySuffix);
    forall n | n in listing
      ensures EndsWith(n, TopologySuffix) <==> Match(ps[4], n)
    {
      MatchStarSuffix(TopologySuffix, n);
    }
    forall k, n | 0 <= k < |ps| && n in listing && Match(ps[k], n)
      ensures EndsWith(n, TopologySuffix)
    {
      var p :| ps[k] == p + TopologySuffix;
      MatchEndsWith(p, TopologySuffix, n);
    }
    var prmtop := FirstMatch(ps, listing);
    if prmtop.Some? {
      var k :| EarliestMatching(ps, listing, k) && prmtop.value == Matches(ps[k], listing)[0];
      assert prmtop.value in listing && Match(ps[k], prmtop.value);
    }
  }

  /**
   * When the preparation step's own topology for `m` is in the listing it is
   * chosen, whatever else is there and in whatever order.
   */
  lemma ExactTopologyWins(listing: seq<string>, m: string)
    requires NoStar(m)
    requires ExactTopology(m) in listing
    ensures FirstMatch(TopologyPatterns(m), listing) == Some(ExactTopology(m))
  {
    var exact := ExactTopology(m);
    assert NoStar(exact) by {
      assert NoStar("strip.1xjv_POT1_ssDNA-") && NoStar("_wat") && NoStar(TopologySuffix);
      assert forall c | c in exact :: c in "strip.1xjv_POT1_ssDNA-" || c in m || c in "_wat" || c in TopologySuffix;
    }
    MatchLiteral(exact, exact);
    var ms := Matches(exact, listing);
    assert exact in ms;
    MatchLiteral(exact, ms[0]);
  }

  // ---------------------------------------------------------------------
  // The trajectory

  lemma TrajectoryPatternsEndWithSuffix(m: string)
    ensures forall k | 0 <= k < |TrajectoryPatterns(m)| ::
      exists p :: TrajectoryPatterns(m)[k] == p + TrajectorySuffix
  {
    var ps := TrajectoryPatterns(m);
    assert ps[0] == ("1xjv_POT1_ssDNA-" + m + "_wat_imaged_*") + TrajectorySuffix;
    assert ps[1] == ("*" + m + "*") + TrajectorySuffix;
    assert ps[2] == "*" + TrajectorySuffix;
  }

  /**
   * A chosen trajectory is a listed, admissible `.nc` name, and none is
   * chosen exactly when no listed `.nc` name is admissible.
   */
  lemma TrajectoryChoice(listing: seq<string>, m: string)
    ensures var nc := FirstAdmissibleMatch(TrajectoryPatterns(m), listing);
      && (nc.Some? ==> nc.value in listing && Admissible(nc.value) && EndsWith(nc.value, TrajectorySuffix))
      && (nc.None? <==> forall n | n in listing && EndsWith(n, TrajectorySuffix) :: !Admissible(n))
  {
    var ps := TrajectoryPatterns(m);
    FirstAdmissiblePrecedence(ps, listing);
    TrajectoryPatternsEndWithSuffix(m);
    assert NoStar(TrajectorySuffix);
    forall k, n | 0 <= k < |ps| && n in listing && Match(ps[k], n)
      ensures EndsWith(n, TrajectorySuffix)
    {
      var p :| ps[k] == p + TrajectorySuffix;
      MatchEndsWith(p, TrajectorySuffix, n);
    }
    forall n | n in listing && EndsWith(n, TrajectorySuffix) && Admissible(n)
      ensures n in Admissibles(Matches(ps[2], listing))
    {
      MatchStarSuffix(TrajectorySuffix, n);
    }
    var nc := FirstAdmissibleMatch(ps, listing);
    if nc.Some? {
      var k :| EarliestAdmissible(ps, listing, k) && nc.value == Admissibles(Matches(ps[k], listing))[0];
      assert nc.value in Matches(ps[k], listing);
    }
  }
}
