/** One match on the scoreboard: two team names, two scores and the moment
    the match was started. */
module Matches {

  class Match {
    const homeTeam: string
    const awayTeam: string
    var homeScore: nat
    var awayScore: nat
    const startTime: nat

    /** A new match between the two teams, started at clock reading `now`.
        The names are kept exactly as given and nothing is validated: empty
        names, and the same name on both sides, are accepted. */
    constructor (homeTeam: string, awayTeam: string, now: nat)
      ensures this.homeTeam == homeTeam && this.awayTeam == awayTeam
      ensures homeScore == 0 && awayScore == 0
      ensures startTime == now
    {
      this.homeTeam := homeTeam;
      this.awayTeam := awayTeam;
      homeScore := 0;
      awayScore := 0;
      startTime := now;
    }
  }
}
