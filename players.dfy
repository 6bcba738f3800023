/** A connected player. The id and the connection time come from the
    caller (they are random and clock values in the running server); the
    socket id and the status change in place as the player reconnects,
    queues and plays. */
module Players {
  datatype PlayerStatus = Online | Idle | InQueue | InMatch

  datatype PlayerStats = PlayerStats(wins: int, losses: int, totalMatches: int)

  /** What other players are shown of a player. */
  datatype PublicPlayer = PublicPlayer(id: string, username: string, status: PlayerStatus, stats: PlayerStats)

  class Player {
    const id: string
    const username: string
    var socketId: string
    var status: PlayerStatus
    var stats: PlayerStats
    const connectedAt: int

    /** A new player is online with no matches played. */
    constructor(id: string, username: string, socketId: string, now: int)
      ensures this.id == id && this.username == username && this.socketId == socketId
      ensures status == Online && stats == PlayerStats(0, 0, 0) && connectedAt == now
    {
      this.id := id;
      this.username := username;
      this.socketId := socketId;
      status := Online;
      stats := PlayerStats(0, 0, 0);
      connectedAt := now;
    }

    function PublicData(): PublicPlayer
      reads this
    {
      PublicPlayer(id, username, status, stats)
    }
  }
}
