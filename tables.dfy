/**
 * The hosted backend's tables as the auction application reads and writes them:
 * `players`, `buyers` and `players_bid`, each a map from a row's id to the row.
 * The store itself is remote; the model passes a `Tables` value into each
 * operation and returns the tables the operation leaves behind.
 */
module Tables {
  import opened Wrappers

  /** Player rows are keyed by a number. */
  type PlayerId = int
  /** Buyer rows are keyed by the signed-in user's id, a string. */
  type UserId = string

  /**
   * A row of `players` (the `Player` interface of the auction and admin pages),
   * with the `bids` column that the auction page also reads (missing is read as []).
   */
  datatype Player = Player(
    id: PlayerId,
    name: string,
    imageUrl: string,
    basePrice: int,
    battingRating: int,
    bowlingRating: int,
    status: string,
    teamId: Option<UserId>,
    sold: bool,
    isBiddingRunning: bool,
    bids: seq<string>)

  /** A row of `buyers`; a missing `team_list` is read as the empty list. */
  datatype Buyer = Buyer(id: UserId, name: string, balance: int, teamList: seq<PlayerId>)

  /** A row of `players_bid`: the bid history of one player and its settled result. */
  datatype BidRow = BidRow(
    id: PlayerId,
    buyerId: Option<UserId>,
    bids: seq<string>,
    totalBidAmount: Option<int>)

  datatype Tables = Tables(
    players: map<PlayerId, Player>,
    buyers: map<UserId, Buyer>,
    playersBid: map<PlayerId, BidRow>)

  /** Every buyer row is stored under its own id. */
  ghost predicate BuyerKeysMatch(t: Tables) {
    forall k :: k in t.buyers ==> t.buyers[k].id == k
  }

  /**
   * `buyers.select("*").eq("id", user?.id).single()`: the caller's row, or
   * None when the query reports an error (no user, no such row, or a store failure).
   */
  function FetchBuyer(t: Tables, user: Option<UserId>, fails: bool): (r: Option<Buyer>)
    ensures r.Some? <==> !fails && user.Some? && user.value in t.buyers
    ensures r.Some? ==> r.value == t.buyers[user.value]
  {
    if fails || user.None? || user.value !in t.buyers then None else Some(t.buyers[user.value])
  }
}
