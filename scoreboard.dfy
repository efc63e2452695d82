/** The live scoreboard: the started matches, reachable by their pairing key
    and, as the same objects, in a list ordered by start time, newest first. */
module Scoreboards {
  import opened Decimal
  import opened Matches

  /** The key under which a pairing is filed: the two names joined by " vs ". */
  function MatchKey(homeTeam: string, awayTeam: string): (k: string)
    ensures |k| == |homeTeam| + 4 + |awayTeam|
    ensures k[..|homeTeam|] == homeTeam
    ensures k[|homeTeam|..|homeTeam| + 4] == " vs "
    ensures k[|homeTeam| + 4..] == awayTeam
  {
    homeTeam + " vs " + awayTeam
  }

  function KeyOf(m: Match): (k: string)
  {
    MatchKey(m.homeTeam, m.awayTeam)
  }

  /** Newest first: start times never increase along the list. */
  ghost predicate SortedByTime(s: seq<Match>)
  {
    forall i, j :: 0 <= i < j < |s| ==> s[i].startTime >= s[j].startTime
  }

  ghost predicate Distinct(s: seq<Match>) {
    forall i, j :: 0 <= i < j < |s| ==> s[i] != s[j]
  }

  /** The map that filing the matches of s under their keys, one after the
      other, leaves behind: a later match replaces an earlier one with the
      same key. */
  ghost function Latest(s: seq<Match>): (filed: map<string, Match>)
  {
    if s == [] then map[] else Latest(s[..|s| - 1])[KeyOf(s[|s| - 1]) := s[|s| - 1]]
  }

  /** The scoreboard's invariant over the map, the list and the history of
      started matches: every started match is in the list exactly once, the
      list is newest first, and the map is what filing the history leaves. */
  ghost predicate Consistent(matches: map<string, Match>, sorted: seq<Match>, started: seq<Match>)
    ensures Consistent(matches, sorted, started) ==> |sorted| == |started|
  {
    assert multiset(sorted) == multiset(started) ==> |multiset(sorted)| == |multiset(started)|;
    && Distinct(started)
    && multiset(sorted) == multiset(started)
    && SortedByTime(sorted)
    && matches == Latest(started)
  }

  lemma StartKeepsConsistent(matches: map<string, Match>, sorted: seq<Match>, started: seq<Match>, m: Match)
    requires Consistent(matches, sorted, started) && m !in started
    ensures Consistent(matches[KeyOf(m) := m], PushAndSort(sorted, m), started + [m])
  {
    PushAndSortSorted(sorted, m);
    PushAndSortPermutes(sorted, m);
    LatestSnoc(started, m);
    DistinctSnoc(started, m);
  }

  lemma LatestSnoc(s: seq<Match>, m: Match)
    ensures Latest(s + [m]) == Latest(s)[KeyOf(m) := m]
  {
    assert (s + [m])[..|s|] == s;
  }

  lemma DistinctSnoc(s: seq<Match>, m: Match)
    requires Distinct(s) && m !in s
    ensures Distinct(s + [m])
  {
  }

  lemma {:induction false} LatestValues(s: seq<Match>)
    ensures forall k :: k in Latest(s) ==> Latest(s)[k] in s && KeyOf(Latest(s)[k]) == k
  {
    if s != [] {
      LatestValues(s[..|s| - 1]);
    }
  }

  lemma {:induction false} LatestKeys(s: seq<Match>)
    ensures forall m :: m in s ==> KeyOf(m) in Latest(s)
  {
    if s != [] {
      LatestKeys(s[..|s| - 1]);
      forall m | m in s ensures KeyOf(m) in Latest(s) {
        if m != s[|s| - 1] {
          assert m in s[..|s| - 1];
        }
      }
    }
  }

  lemma {:induction false} LatestSize(s: seq<Match>)
    ensures |Latest(s)| <= |s|
  {
    if s != [] {
      var init := s[..|s| - 1];
      LatestSize(init);
      assert Latest(s).Keys == Latest(init).Keys + {KeyOf(s[|s| - 1])};
    }
  }

  /** What pushing m onto the newest-first list s and then sorting the list
      by descending start time yields. The sort is stable, so m, arriving
      last, moves ahead of exactly those matches at the end of the list that
      started strictly earlier than it, and stays behind any match started at
      the same time or later. */
  ghost function PushAndSort(s: seq<Match>, m: Match): (r: seq<Match>)
    ensures |r| == |s| + 1
  {
    if s == [] || s[|s| - 1].startTime >= m.startTime then s + [m]
    else PushAndSort(s[..|s| - 1], m) + [s[|s| - 1]]
  }

  /** The insertion step of the sort: scans back from the end of the list
      past the matches that started strictly earlier than m, and puts m
      there. */
  method InsertByStartTime(s: seq<Match>, m: Match) returns (r: seq<Match>)
    requires SortedByTime(s)
    ensures r == PushAndSort(s, m)
  {
    var j := |s|;
    assert s[..j] == s && s[j..] == [];
    while j > 0 && s[j - 1].startTime < m.startTime
      invariant 0 <= j <= |s|
      invariant PushAndSort(s, m) == PushAndSort(s[..j], m) + s[j..]
    {
      assert s[..j][..j - 1] == s[..j - 1];
      assert s[j - 1..] == [s[j - 1]] + s[j..];
      j := j - 1;
    }
    assert s[..j] == [] || s[..j][j - 1].startTime >= m.startTime;
    r := s[..j] + [m] + s[j..];
  }

  lemma {:induction false} PushAndSortPermutes(s: seq<Match>, m: Match)
    ensures multiset(PushAndSort(s, m)) == multiset(s) + multiset{m}
  {
    if s != [] && s[|s| - 1].startTime < m.startTime {
      var init := s[..|s| - 1];
      PushAndSortPermutes(init, m);
      assert s == init + [s[|s| - 1]];
    }
  }

  /** A list that was newest first stays so. */
  lemma PushAndSortSorted(s: seq<Match>, m: Match)
    requires SortedByTime(s)
    ensures SortedByTime(PushAndSort(s, m))
  {
    PushAndSortPlacement(s, m);
    PushAndSortBehindNotOlder(s, m);
    var k := |s| - OlderSuffixLength(s, m.startTime);
    var r := PushAndSort(s, m);
    assert forall i :: 0 <= i < |r| ==> r[i] == if i < k then s[i] else if i == k then m else s[i - 1];
    forall i, j | 0 <= i < j < |r| ensures r[i].startTime >= r[j].startTime {
      if j < k {
        assert r[i] == s[i] && r[j] == s[j];
      } else if i > k {
        assert r[i] == s[i - 1] && r[j] == s[j - 1];
      }
    }
  }

  /** The newly started match goes to the front when every match already
      on the list started strictly earlier. */
  lemma {:induction false} PushAndSortNewestFirst(s: seq<Match>, m: Match)
    requires forall i :: 0 <= i < |s| ==> s[i].startTime < m.startTime
    ensures PushAndSort(s, m) == [m] + s
  {
    if s != [] {
      var init := s[..|s| - 1];
      PushAndSortNewestFirst(init, m);
      assert s == init + [s[|s| - 1]];
    }
  }

  /** How many matches at the end of s started strictly before t. */
  ghost function OlderSuffixLength(s: seq<Match>, t: nat): (n: nat)
    ensures n <= |s|
  {
    if s == [] || s[|s| - 1].startTime >= t then 0 else OlderSuffixLength(s[..|s| - 1], t) + 1
  }

  /** m lands ahead of the run of matches at the end of the list that started
      strictly earlier than it, and the other matches keep their order. */
  lemma {:induction false} PushAndSortPlacement(s: seq<Match>, m: Match)
    ensures var k := |s| - OlderSuffixLength(s, m.startTime);
      && PushAndSort(s, m) == s[..k] + [m] + s[k..]
      && (forall i :: k <= i < |s| ==> s[i].startTime < m.startTime)
  {
    if s != [] && s[|s| - 1].startTime < m.startTime {
      var init := s[..|s| - 1];
      PushAndSortPlacement(init, m);
      var k := |init| - OlderSuffixLength(init, m.startTime);
      assert k == |s| - OlderSuffixLength(s, m.startTime);
      assert s[..k] == init[..k];
      assert s[k..] == init[k..] + [s[|s| - 1]];
    }
  }

  /** In a newest-first list, every match ahead of m started at the same time
      as m or later: ties keep the earlier-started match in front. */
  lemma PushAndSortBehindNotOlder(s: seq<Match>, m: Match)
    requires SortedByTime(s)
    ensures var k := |s| - OlderSuffixLength(s, m.startTime);
      forall i :: 0 <= i < k ==> s[i].startTime >= m.startTime
  {
    var k := |s| - OlderSuffixLength(s, m.startTime);
    if k > 0 {
      OlderSuffixStops(s, m.startTime);
      forall i | 0 <= i < k ensures s[i].startTime >= m.startTime {
        assert s[i].startTime >= s[k - 1].startTime;
      }
    }
  }

  lemma {:induction false} OlderSuffixStops(s: seq<Match>, t: nat)
    requires OlderSuffixLength(s, t) < |s|
    ensures s[|s| - OlderSuffixLength(s, t) - 1].startTime >= t
  {
    if s[|s| - 1].startTime < t {
      var init := s[..|s| - 1];
      OlderSuffixStops(init, t);
      assert init[|init| - OlderSuffixLength(init, t) - 1] == s[|s| - OlderSuffixLength(s, t) - 1];
    }
  }

  /** Line `rank` of the summary: "<rank>. <home> <homeScore> - <away> <awayScore>". */
  function RenderLine(rank: nat, homeTeam: string, homeScore: nat, awayTeam: string, awayScore: nat): (line: string)
    ensures NatToString(rank) + ". " <= line
    ensures |line| == |NatToString(rank)| + |homeTeam| + |NatToString(homeScore)|
      + |awayTeam| + |NatToString(awayScore)| + 7
  {
    NatToString(rank) + ". " + homeTeam + " " + NatToString(homeScore)
      + " - " + awayTeam + " " + NatToString(awayScore)
  }

  /** The summary line of match m at the given rank; its rank can be read
      back off its front. */
  function SummaryLine(rank: nat, m: Match): (line: string)
    reads m
    ensures line == RenderLine(rank, m.homeTeam, m.homeScore, m.awayTeam, m.awayScore)
    ensures RankOf(line) == rank
  {
    RenderLineRank(rank, m.homeTeam, m.homeScore, m.awayTeam, m.awayScore);
    RenderLine(rank, m.homeTeam, m.homeScore, m.awayTeam, m.awayScore)
  }

  /** The summary lines of s, ranked from `first` on: one line per match, in
      list order. */
  function SummaryFrom(s: seq<Match>, first: nat): (lines: seq<string>)
    reads s
    ensures |lines| == |s|
    ensures forall i :: 0 <= i < |s| ==> lines[i] == SummaryLine(first + i, s[i])
  {
    if s == [] then [] else [SummaryLine(first, s[0])] + SummaryFrom(s[1..], first + 1)
  }

  /** The rank a summary line starts with: its leading digits, read as a number. */
  function RankOf(line: string): (rank: nat) {
    DigitsValue(LeadingDigits(line))
  }

  /** A summary line gives back the rank it was written with. */
  lemma RenderLineRank(rank: nat, homeTeam: string, homeScore: nat, awayTeam: string, awayScore: nat)
    ensures RankOf(RenderLine(rank, homeTeam, homeScore, awayTeam, awayScore)) == rank
  {
    var rest := ". " + homeTeam + " " + NatToString(homeScore)
      + " - " + awayTeam + " " + NatToString(awayScore);
    assert RenderLine(rank, homeTeam, homeScore, awayTeam, awayScore) == NatToString(rank) + rest;
    LeadingDigitsOfDigitsThen(NatToString(rank), rest);
    DigitsValueOfNatToString(rank);
  }

  class Scoreboard {
    /** The matches by pairing key. */
    var matches: map<string, Match>
    /** The same matches, newest first. */
    var sortedMatches: seq<Match>
    /** Every match startMatch has created, in the order of the calls. */
    ghost var started: seq<Match>

    ghost predicate Valid()
      reads this
      ensures Valid() ==> |sortedMatches| == |started|
    {
      Consistent(matches, sortedMatches, started)
    }

    /** The match the latest startMatch call created. */
    ghost function NewestStarted(): Match
      reads this
      requires started != []
    {
      started[|started| - 1]
    }

    constructor ()
      ensures Valid()
      ensures matches == map[] && sortedMatches == [] && started == []
    {
      matches := map[];
      sortedMatches := [];
      started := [];
    }

    /** Starts a match between the two teams at clock reading `now`. Nothing
        is rejected: a pairing already on the board is filed again, and its
        new match replaces the old one under the key while both stay in the
        list. */
    method StartMatch(homeTeam: string, awayTeam: string, now: nat)
      requires Valid()
      modifies this
      ensures Valid()
      ensures |started| == |old(started)| + 1 && started[..|old(started)|] == old(started)
      ensures fresh(NewestStarted())
      ensures NewestStarted().homeTeam == homeTeam && NewestStarted().awayTeam == awayTeam
      ensures NewestStarted().homeScore == 0 && NewestStarted().awayScore == 0
      ensures NewestStarted().startTime == now
      ensures matches == old(matches)[homeTeam + " vs " + awayTeam := NewestStarted()]
      ensures sortedMatches == PushAndSort(old(sortedMatches), NewestStarted())
    {
      var matchKey := MatchKey(homeTeam, awayTeam);
      var m := new Match(homeTeam, awayTeam, now);
      var sorted := InsertByStartTime(sortedMatches, m);
      ghost var before, history := matches, started;
      matches, sortedMatches, started := matches[matchKey := m], sorted, started + [m];
      assert Valid() by {
        StartKeepsConsistent(before, old(sortedMatches), history, m);
      }
    }

    /** The ranked summary: line i renders the match at index i of the
        list, ranked i + 1. */
    function GetSummary(): (lines: seq<string>)
      reads this, sortedMatches
      ensures |lines| == |sortedMatches|
      ensures forall i :: 0 <= i < |lines| ==> lines[i] == SummaryLine(i + 1, sortedMatches[i])
    {
      SummaryFrom(sortedMatches, 1)
    }

    /** Ranks run 1, 2, 3, ... down the summary. */
    lemma SummaryRanks()
      ensures forall i :: 0 <= i < |GetSummary()| ==> RankOf(GetSummary()[i]) == i + 1
    {
      forall i | 0 <= i < |GetSummary()| ensures RankOf(GetSummary()[i]) == i + 1 {
        var m := sortedMatches[i];
        RenderLineRank(i + 1, m.homeTeam, m.homeScore, m.awayTeam, m.awayScore);
      }
    }

    /** Every match filed under a key is in the list too, filed under its
        own pairing key, and every match in the list has its key filed. */
    lemma ViewsAgree()
      requires Valid()
      ensures forall k :: k in matches ==> matches[k] in sortedMatches && KeyOf(matches[k]) == k
      ensures forall m :: m in sortedMatches ==> KeyOf(m) in matches
    {
      LatestValues(started);
      LatestKeys(started);
      forall k | k in matches ensures matches[k] in sortedMatches {
        assert matches[k] in multiset(started);
      }
      forall m | m in sortedMatches ensures KeyOf(m) in matches {
        assert m in multiset(sortedMatches);
      }
    }

    /** When the latest match started strictly after every earlier one, it
        heads the list, and so the summary. */
    lemma NewestRankedFirst()
      requires Valid() && started != []
      requires forall i :: 0 <= i < |started| - 1 ==> started[i].startTime < NewestStarted().startTime
      ensures sortedMatches[0] == NewestStarted()
    {
      var n := NewestStarted();
      assert n in multiset(started);
      assert n in multiset(sortedMatches);
      var j :| 0 <= j < |sortedMatches| && sortedMatches[j] == n;
      var f := sortedMatches[0];
      assert f in multiset(sortedMatches);
      assert f in multiset(started);
      var i :| 0 <= i < |started| && started[i] == f;
      assert f.startTime >= n.startTime;
    }

    /** The list holds one entry per startMatch call, so at least as many as the map. */
    lemma ListCoversMap()
      requires Valid()
      ensures |sortedMatches| == |started|
      ensures |matches| <= |sortedMatches|
    {
      assert |multiset(sortedMatches)| == |multiset(started)|;
      LatestSize(started);
    }
  }
}
