/** The repository's own usage examples, replayed against the model: what a
    caller can conclude from the contracts of Match and Scoreboard alone. */
module Scenarios {
  import opened Decimal
  import opened Matches
  import opened Scoreboards

  /** A new match keeps both names as given and starts at nil-nil. */
  method NewMatchScenario(now: nat) returns (home: string, away: string, homeScore: nat, awayScore: nat, startTime: nat)
    ensures home == "Brazil" && away == "North Korea"
    ensures homeScore == 0 && awayScore == 0
    ensures startTime == now
  {
    var m := new Match("Brazil", "North Korea", now);
    home, away, homeScore, awayScore, startTime := m.homeTeam, m.awayTeam, m.homeScore, m.awayScore, m.startTime;
  }

  /** The start time lies between clock readings taken just before and just
      after the match is created. */
  method StartTimeScenario(before: nat, now: nat, after: nat) returns (startTime: nat)
    requires before <= now <= after
    ensures before <= startTime <= after
  {
    var m := new Match("Brazil", "North Korea", now);
    startTime := m.startTime;
  }

  // The summary scenarios state each expected line through RenderLine; the
  // lemmas at the end of the module spell those lines out character by
  // character, e.g. RenderLine(1, "Australia", 0, "Cuba", 0) is
  // "1. Australia 0 - Cuba 0".

  /** One started match gives a one-line summary. */
  method StartOneScenario(now: nat) returns (summary: seq<string>)
    ensures summary == [RenderLine(1, "Australia", 0, "Cuba", 0)]
  {
    var board := new Scoreboard();
    board.StartMatch("Australia", "Cuba", now);
    ghost var m := board.NewestStarted();
    assert board.sortedMatches == [m];
    summary := board.GetSummary();
  }

  /** A match started later is ranked above one started earlier. */
  method NewestFirstScenario(t0: nat, t1: nat) returns (summary: seq<string>)
    requires t0 < t1
    ensures summary == [RenderLine(1, "Mongolia", 0, "Canada", 0), RenderLine(2, "Australia", 0, "Cuba", 0)]
  {
    var board := new Scoreboard();
    board.StartMatch("Australia", "Cuba", t0);
    ghost var first := board.NewestStarted();
    assert board.sortedMatches == [first];
    board.StartMatch("Mongolia", "Canada", t1);
    ghost var second := board.NewestStarted();
    assert board.sortedMatches == [second, first];
    summary := board.GetSummary();
  }

  /** Two matches started at the same clock reading keep the order in which
      they were started: the earlier call is ranked first. */
  method SameTickScenario(t: nat) returns (summary: seq<string>)
    ensures summary == [RenderLine(1, "Australia", 0, "Cuba", 0), RenderLine(2, "Mongolia", 0, "Canada", 0)]
  {
    var board := new Scoreboard();
    board.StartMatch("Australia", "Cuba", t);
    ghost var first := board.NewestStarted();
    assert board.sortedMatches == [first];
    board.StartMatch("Mongolia", "Canada", t);
    ghost var second := board.NewestStarted();
    assert board.sortedMatches == [first, second];
    summary := board.GetSummary();
  }

  /** Starting the same pairing twice is not rejected: the key is filed once
      and now points at the second match, while the list holds both. */
  method DuplicateStartScenario(t0: nat, t1: nat) returns (keys: set<string>, listed: nat, filedStart: nat)
    requires t0 < t1
    ensures keys == {"Australia vs Cuba"}
    ensures listed == 2
    ensures filedStart == t1
  {
    var board := new Scoreboard();
    board.StartMatch("Australia", "Cuba", t0);
    board.StartMatch("Australia", "Cuba", t1);
    ScenarioKeys();
    keys, listed := board.matches.Keys, |board.sortedMatches|;
    filedStart := board.matches["Australia vs Cuba"].startTime;
  }

  /** Nothing is validated: empty names and self-play are filed like any
      other pairing. */
  method NoValidationScenario(t0: nat, t1: nat) returns (keys: set<string>)
    ensures keys == {" vs ", "Brazil vs Brazil"}
  {
    var board := new Scoreboard();
    board.StartMatch("", "", t0);
    board.StartMatch("Brazil", "Brazil", t1);
    ScenarioKeys();
    keys := board.matches.Keys;
  }

  /** The summary lines the scenarios above expect, rendered from their parts. */
  lemma AustraliaCubaFirst()
    ensures RenderLine(1, "Australia", 0, "Cuba", 0) == "1. Australia 0 - Cuba 0"
  {
    SmallNumerals();
  }

  lemma AustraliaCubaSecond()
    ensures RenderLine(2, "Australia", 0, "Cuba", 0) == "2. Australia 0 - Cuba 0"
  {
    SmallNumerals();
  }

  lemma MongoliaCanadaFirst()
    ensures RenderLine(1, "Mongolia", 0, "Canada", 0) == "1. Mongolia 0 - Canada 0"
  {
    SmallNumerals();
  }

  lemma MongoliaCanadaSecond()
    ensures RenderLine(2, "Mongolia", 0, "Canada", 0) == "2. Mongolia 0 - Canada 0"
  {
    SmallNumerals();
  }

  lemma NamelessFirst()
    ensures RenderLine(1, "", 0, "", 0) == "1.  0 -  0"
  {
    SmallNumerals();
  }

  /** The pairing keys the scenarios above file. */
  lemma ScenarioKeys()
    ensures "Australia" + " vs " + "Cuba" == "Australia vs Cuba"
    ensures "Brazil" + " vs " + "Brazil" == "Brazil vs Brazil"
    ensures "" + " vs " + "" == " vs "
  {
  }

  lemma SmallNumerals()
    ensures NatToString(0) == "0" && NatToString(1) == "1" && NatToString(2) == "2"
  {
  }
}
