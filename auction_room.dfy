/**
 * The live auction room a buyer sees (components/AuctionPage.tsx): the player
 * whose bidding is running, the bid history as display strings, a 15-tick
 * countdown reset by every accepted bid, and the settlement that runs when the
 * countdown reaches zero with at least one bid recorded.
 *
 * The component's state is the class `AuctionRoom`; the backend tables are the
 * `Tables` value each operation receives and returns. The accept/reject rule
 * and the settlement's effect on the tables are pure functions (`DecideBid`,
 * `Settle`) that the methods are proved against.
 */
module AuctionRoom {
  import opened Wrappers
  import opened Tables
  import opened BidText

  /** Length, in ticks, of the countdown; every accepted bid resets it to this. */
  const BidWindow: int := 15

  /** The previous high as the bid handler reads it: 0 for an empty history, else the last message's amount. */
  function PreviousHigh(bids: seq<string>): (r: Parsed)
    ensures bids == [] ==> r == Number(0)
    ensures bids != [] ==> r == ParseBidAmount(bids[|bids| - 1])
  {
    if bids == [] then Number(0) else ParseBidAmount(bids[|bids| - 1])
  }

  /** Only the last message is read: whatever comes before it makes no difference. */
  lemma PreviousHighReadsLastOnly(earlier: seq<string>, later: seq<string>, last: string)
    ensures PreviousHigh(earlier + [last]) == PreviousHigh(later + [last])
  {
  }

  /**
   * The previous high is not the largest recorded total: a history whose last
   * message carries less than an earlier one has the smaller total as its high.
   */
  lemma PreviousHighIsNotTheMaximum(name: string)
    ensures PreviousHigh([FormatBid(5000, name), FormatBid(2000, name)]) == Number(2000)
  {
    PreviousHighAfterAppend([FormatBid(5000, name)], 2000, name);
    assert [FormatBid(5000, name)] + [FormatBid(2000, name)] == [FormatBid(5000, name), FormatBid(2000, name)];
  }

  /** After a message is appended, the previous high is the total that message carries. */
  lemma PreviousHighAfterAppend(bids: seq<string>, total: int, name: string)
    ensures PreviousHigh(bids + [FormatBid(total, name)]) == Number(total)
  {
    BidMessageRoundTrip(total, name);
  }

  /** The amount read out of each message of the history, oldest first. */
  function Amounts(bids: seq<string>): (ps: seq<Parsed>)
    ensures |ps| == |bids|
  {
    if bids == [] then [] else Amounts(bids[..|bids| - 1]) + [ParseBidAmount(bids[|bids| - 1])]
  }

  lemma {:induction false} AmountsAt(bids: seq<string>, i: int)
    requires 0 <= i < |bids|
    ensures Amounts(bids)[i] == ParseBidAmount(bids[i])
  {
    if i < |bids| - 1 {
      assert bids[..|bids| - 1][i] == bids[i];
      AmountsAt(bids[..|bids| - 1], i);
    }
  }

  lemma AmountsAppend(bids: seq<string>, msg: string)
    ensures Amounts(bids + [msg]) == Amounts(bids) + [ParseBidAmount(msg)]
  {
    assert (bids + [msg])[..|bids|] == bids;
  }

  /** The previous high is the amount of the last message. */
  lemma PreviousHighIsLastAmount(bids: seq<string>)
    requires bids != []
    ensures PreviousHigh(bids) == Amounts(bids)[|bids| - 1]
  {
  }

  /** Every amount is a positive number, and the amounts strictly increase. */
  ghost predicate Increasing(ps: seq<Parsed>) {
    && (forall i :: 0 <= i < |ps| ==> ps[i].Number? && ps[i].value > 0)
    && (forall i, j :: 0 <= i < j < |ps| ==> ps[i].value < ps[j].value)
  }

  lemma IncreasingAppend(ps: seq<Parsed>, total: int)
    requires Increasing(ps) && total > 0
    requires forall i :: 0 <= i < |ps| ==> ps[i].value < total
    ensures Increasing(ps + [Number(total)])
  {
  }

  /**
   * A well-formed history: every message carries a positive total and the totals
   * strictly increase from the oldest message to the newest.
   */
  ghost predicate IncreasingLedger(bids: seq<string>) {
    Increasing(Amounts(bids))
  }

  /** Why the bid handler stopped, or the message it appended. */
  datatype BidOutcome =
    | InvalidAmount                               // increment zero or negative
    | Crashed                                     // last message has no ": ": the parse throws, nothing happens
    | NoAuction                                   // no player loaded
    | TooLow(high: int)                           // total not above the previous high
    | BuyerLookupFailed                           // the buyer query reported an error
    | InsufficientBalance(balance: int, total: int)
    | Accepted(total: int, message: string)

  /**
   * The checks before the buyer query pass: the increment is positive, the last
   * message parses without throwing, a player is loaded, and the total is not
   * at or below a numeric previous high.
   */
  predicate ClearsHigh(bidAmount: int, bids: seq<string>, player: Option<Player>) {
    && bidAmount > 0
    && PreviousHigh(bids) != NoField
    && player.Some?
    && !(PreviousHigh(bids).Number? && player.value.basePrice + bidAmount <= PreviousHigh(bids).value)
  }

  /**
   * The decision of the bid handler for increment `bidAmount`, given the
   * history, the loaded player and the result of the buyer query (None when the
   * query fails). The checks run in the handler's order; when no player is
   * loaded the total is NaN, every comparison with it is false and the handler
   * falls through to its `if (selectedPlayer)` test. A previous high that
   * parses to NaN lets any positive increment through the "higher than" check.
   */
  function DecideBid(bidAmount: int, bids: seq<string>, player: Option<Player>, buyer: Option<Buyer>): (r: BidOutcome)
    ensures bidAmount <= 0 <==> r == InvalidAmount
    ensures r.Accepted? ==>
      && player.Some? && buyer.Some?
      && r.total == player.value.basePrice + bidAmount
      && r.total <= buyer.value.balance
      && PreviousHigh(bids) != NoField
      && (PreviousHigh(bids).Number? ==> PreviousHigh(bids).value < r.total)
      && r.message == FormatBid(r.total, buyer.value.name)
    ensures bidAmount > 0 && player.Some? && PreviousHigh(bids).Number?
            && player.value.basePrice + bidAmount <= PreviousHigh(bids).value
            ==> r == TooLow(PreviousHigh(bids).value)
    ensures bidAmount > 0 && player.Some? && PreviousHigh(bids) == NotANumber && buyer.Some?
            && player.value.basePrice + bidAmount <= buyer.value.balance
            ==> r.Accepted?
  {
    if bidAmount <= 0 then InvalidAmount
    else if PreviousHigh(bids) == NoField then Crashed
    else if player.None? then NoAuction
    else
      var total := player.value.basePrice + bidAmount;
      if PreviousHigh(bids).Number? && total <= PreviousHigh(bids).value then TooLow(PreviousHigh(bids).value)
      else if buyer.None? then BuyerLookupFailed
      else if buyer.value.balance < total then InsufficientBalance(buyer.value.balance, total)
      else Accepted(total, FormatBid(total, buyer.value.name))
  }

  /**
   * When each outcome of the bid handler happens, in both directions: the
   * parse crashes, no player is loaded, the total is too low, the buyer query
   * fails, the balance does not cover the total, or the bid is accepted.
   */
  lemma DecideBidOutcomes(bidAmount: int, bids: seq<string>, player: Option<Player>, buyer: Option<Buyer>)
    ensures DecideBid(bidAmount, bids, player, buyer) == Crashed
            <==> bidAmount > 0 && PreviousHigh(bids) == NoField
    ensures DecideBid(bidAmount, bids, player, buyer) == NoAuction
            <==> bidAmount > 0 && PreviousHigh(bids) != NoField && player.None?
    ensures DecideBid(bidAmount, bids, player, buyer).TooLow?
            <==> bidAmount > 0 && player.Some? && PreviousHigh(bids).Number?
                 && player.value.basePrice + bidAmount <= PreviousHigh(bids).value
    ensures DecideBid(bidAmount, bids, player, buyer) == BuyerLookupFailed
            <==> ClearsHigh(bidAmount, bids, player) && buyer.None?
    ensures DecideBid(bidAmount, bids, player, buyer)
              == InsufficientBalance(if buyer.Some? then buyer.value.balance else 0,
                                     if player.Some? then player.value.basePrice + bidAmount else 0)
            <==> ClearsHigh(bidAmount, bids, player) && buyer.Some?
                 && buyer.value.balance < player.value.basePrice + bidAmount
    ensures DecideBid(bidAmount, bids, player, buyer).Accepted?
            <==> ClearsHigh(bidAmount, bids, player) && buyer.Some?
                 && player.value.basePrice + bidAmount <= buyer.value.balance
  {
  }

  /** In an increasing history the last message holds the largest total. */
  lemma {:induction false} LastIsHighest(bids: seq<string>, i: int)
    requires IncreasingLedger(bids) && 0 <= i < |bids|
    ensures PreviousHigh(bids).Number?
    ensures Amounts(bids)[i].value <= PreviousHigh(bids).value
  {
    PreviousHighIsLastAmount(bids);
    if i < |bids| - 1 {
      assert Amounts(bids)[i].value < Amounts(bids)[|bids| - 1].value;
    }
  }

  /**
   * On a well-formed history, with a player loaded and the buyer found, a bid is
   * accepted exactly when its increment is positive, its total exceeds zero and
   * every recorded total, and the buyer's balance covers it.
   */
  lemma BidAcceptedIff(bidAmount: int, bids: seq<string>, player: Player, buyer: Buyer)
    requires IncreasingLedger(bids)
    ensures DecideBid(bidAmount, bids, Some(player), Some(buyer)).Accepted?
        <==> && bidAmount > 0
             && player.basePrice + bidAmount > 0
             && (forall i :: 0 <= i < |bids| ==> Amounts(bids)[i].value < player.basePrice + bidAmount)
             && player.basePrice + bidAmount <= buyer.balance
  {
    DecideBidOutcomes(bidAmount, bids, Some(player), Some(buyer));
    var total := player.basePrice + bidAmount;
    if bids != [] {
      var high := PreviousHigh(bids);
      LastIsHighest(bids, |bids| - 1);
      PreviousHighIsLastAmount(bids);
      forall i | 0 <= i < |bids| ensures Amounts(bids)[i].value <= high.value {
        LastIsHighest(bids, i);
      }
      assert Amounts(bids)[0].value > 0;
    }
  }

  /** Appending a message whose total is positive and above the previous high keeps the history well formed. */
  lemma AppendKeepsLedgerIncreasing(bids: seq<string>, total: int, name: string)
    requires IncreasingLedger(bids) && total > 0
    requires PreviousHigh(bids).Number? && PreviousHigh(bids).value < total
    ensures IncreasingLedger(bids + [FormatBid(total, name)])
  {
    var ps := Amounts(bids);
    AmountsAppend(bids, FormatBid(total, name));
    BidMessageRoundTrip(total, name);
    forall i | 0 <= i < |ps| ensures ps[i].value < total {
      LastIsHighest(bids, i);
    }
    IncreasingAppend(ps, total);
  }

  /** Every bid the handler accepts keeps a well-formed history well formed. */
  lemma AcceptedKeepsLedgerIncreasing(bidAmount: int, bids: seq<string>, player: Option<Player>, buyer: Option<Buyer>)
    requires IncreasingLedger(bids)
    requires DecideBid(bidAmount, bids, player, buyer).Accepted?
    ensures IncreasingLedger(bids + [DecideBid(bidAmount, bids, player, buyer).message])
  {
    var r := DecideBid(bidAmount, bids, player, buyer);
    if bids != [] {
      LastIsHighest(bids, 0);
    }
    AppendKeepsLedgerIncreasing(bids, r.total, buyer.value.name);
  }

  /** `players_bid.update({ bids }).eq("id", id)`: the row's history is replaced when the write goes through. */
  function WriteBids(rows: map<PlayerId, BidRow>, id: PlayerId, bids: seq<string>, ok: bool): (r: map<PlayerId, BidRow>)
    ensures r.Keys == rows.Keys
    ensures forall k :: k in rows && k != id ==> r[k] == rows[k]
    ensures id in rows ==> r[id] == if ok then rows[id].(bids := bids) else rows[id]
    ensures !ok ==> r == rows
  {
    if ok && id in rows then rows[id := rows[id].(bids := bids)] else rows
  }

  /** Which of settlement's three writes go through (the code ignores their errors). */
  datatype Writes = Writes(buyerOk: bool, playerOk: bool, bidRowOk: bool)

  const AllWritten: Writes := Writes(true, true, true)

  predicate NoDuplicates(s: seq<PlayerId>) {
    forall i, j :: 0 <= i < j < |s| ==> s[i] != s[j]
  }

  /**
   * The tables after settlement of player `p` to the fetched buyer row `b` on
   * behalf of user `uid`, with the room's `winningAmount`:
   * the buyer's balance and team list are written together, and only when
   * the player is not yet in the fetched team list; the player row is marked
   * sold, no longer running, and owned by the buyer; the player's bid row gets
   * the buyer, an empty history and the total `winningAmount + base price`.
   */
  function Settle(t: Tables, b: Buyer, uid: UserId, p: Player, winningAmount: int, w: Writes): (r: Tables)
    ensures r.buyers.Keys == t.buyers.Keys && r.players.Keys == t.players.Keys
    ensures r.playersBid.Keys == t.playersBid.Keys
    ensures forall k :: k in t.buyers && k != b.id ==> r.buyers[k] == t.buyers[k]
    ensures forall k :: k in t.players && k != p.id ==> r.players[k] == t.players[k]
    ensures forall k :: k in t.playersBid && k != p.id ==> r.playersBid[k] == t.playersBid[k]
    ensures p.id in b.teamList || !w.buyerOk ==> r.buyers == t.buyers
    ensures !w.playerOk ==> r.players == t.players
    ensures !w.bidRowOk ==> r.playersBid == t.playersBid
    ensures b.id in t.buyers && w.buyerOk && p.id !in b.teamList ==>
              r.buyers[b.id] == t.buyers[b.id].(balance := b.balance - winningAmount - p.basePrice,
                                                teamList := b.teamList + [p.id])
    ensures p.id in t.players && w.playerOk ==>
              r.players[p.id] == t.players[p.id].(sold := true, isBiddingRunning := false, teamId := Some(b.id))
    ensures p.id in t.playersBid && w.bidRowOk ==>
              r.playersBid[p.id] == t.playersBid[p.id].(buyerId := Some(uid), bids := [],
                                                        totalBidAmount := Some(winningAmount + p.basePrice))
  {
    var buyers :=
      if p.id !in b.teamList && w.buyerOk && b.id in t.buyers then
        t.buyers[b.id := t.buyers[b.id].(balance := b.balance - winningAmount - p.basePrice,
                                         teamList := b.teamList + [p.id])]
      else t.buyers;
    var players :=
      if w.playerOk && p.id in t.players then
        t.players[p.id := t.players[p.id].(sold := true, isBiddingRunning := false, teamId := Some(b.id))]
      else t.players;
    var bidRows :=
      if w.bidRowOk && p.id in t.playersBid then
        t.playersBid[p.id := t.playersBid[p.id].(buyerId := Some(uid), bids := [],
                                                 totalBidAmount := Some(winningAmount + p.basePrice))]
      else t.playersBid;
    Tables(players, buyers, bidRows)
  }

  /**
   * What a completed settlement leaves for the winning buyer, the player and
   * its bid row, when every write goes through and the buyer row was fetched
   * by the user's id.
   */
  lemma SettlementEffects(t: Tables, uid: UserId, p: Player, winningAmount: int)
    requires BuyerKeysMatch(t) && uid in t.buyers && p.id in t.players && p.id in t.playersBid
    ensures var b := t.buyers[uid];
            var r := Settle(t, b, uid, p, winningAmount, AllWritten);
            && p.id in r.buyers[uid].teamList
            && (p.id !in b.teamList ==>
                  r.buyers[uid].balance == b.balance - winningAmount - p.basePrice
                  && r.buyers[uid].teamList == b.teamList + [p.id])
            && (p.id in b.teamList ==> r.buyers[uid] == b)
            && r.players[p.id].sold && !r.players[p.id].isBiddingRunning
            && r.players[p.id].teamId == Some(uid)
            && r.playersBid[p.id].totalBidAmount == Some(winningAmount + p.basePrice)
            && r.playersBid[p.id].bids == [] && r.playersBid[p.id].buyerId == Some(uid)
  {
  }

  /**
   * Settling the same player twice for the same user changes nothing the second
   * time: membership is not duplicated and the balance is not debited again.
   */
  lemma SettlementIdempotent(t: Tables, uid: UserId, p: Player, winningAmount: int)
    requires BuyerKeysMatch(t) && uid in t.buyers
    ensures var t1 := Settle(t, t.buyers[uid], uid, p, winningAmount, AllWritten);
            uid in t1.buyers
            && Settle(t1, t1.buyers[uid], uid, p, winningAmount, AllWritten) == t1
  {
  }

  /** Settlement never duplicates a player in a team list that had no duplicates. */
  lemma SettlementKeepsTeamListDistinct(t: Tables, uid: UserId, p: Player, winningAmount: int, w: Writes)
    requires BuyerKeysMatch(t) && uid in t.buyers && NoDuplicates(t.buyers[uid].teamList)
    ensures var r := Settle(t, t.buyers[uid], uid, p, winningAmount, w);
            uid in r.buyers && NoDuplicates(r.buyers[uid].teamList)
  {
  }

  /** What the winner declaration did. */
  datatype Settlement =
    | NothingToSettle        // no player loaded or no bid recorded: return at once
    | WinnerLookupFailed     // the buyer query reported an error: nothing is written
    | Declared(buyer: Buyer) // the current user's buyer row, settled as the winner

  /**
   * The winner is the CURRENT user's buyer row (the query filters on the
   * signed-in user's id), not the bidder named in the last message.
   */
  function DeclareDecision(player: Option<Player>, bids: seq<string>, buyer: Option<Buyer>): (r: Settlement)
    ensures r.Declared? <==> player.Some? && bids != [] && buyer.Some?
    ensures r.Declared? ==> Some(r.buyer) == buyer
    ensures r == NothingToSettle <==> player.None? || bids == []
  {
    if player.None? || bids == [] then NothingToSettle
    else match buyer
      case None => WinnerLookupFailed
      case Some(b) => Declared(b)
  }

  /** Ids of the rows of `players` whose bidding is running. */
  function RunningIds(t: Tables): set<PlayerId> {
    set k | k in t.players && t.players[k].isBiddingRunning
  }

  class AuctionRoom {
    var selectedPlayer: Option<Player>
    var timer: int
    var bids: seq<string>
    var winner: Option<Buyer>
    var winningAmount: int

    /** The countdown never leaves [0, BidWindow]. */
    ghost predicate Valid()
      reads this
    {
      0 <= timer <= BidWindow
    }

    /** The component's initial state. */
    constructor ()
      ensures Valid()
      ensures selectedPlayer == None && timer == BidWindow && bids == []
      ensures winner == None && winningAmount == 0
    {
      selectedPlayer := None;
      timer := BidWindow;
      bids := [];
      winner := None;
      winningAmount := 0;
    }

    /**
     * Loading the running player. The query for the row whose bidding is
     * running answers with a row only when exactly one row matches; `reply` is
     * its answer, None for an error. On a row, that player and its `bids`
     * column are shown; on an error nothing changes.
     */
    method LoadPlayer(t: Tables, reply: Option<Player>)
      requires Valid()
      requires reply.Some? ==> RunningIds(t) == {reply.value.id} && t.players[reply.value.id] == reply.value
      modifies this
      ensures Valid()
      ensures timer == old(timer) && winner == old(winner) && winningAmount == old(winningAmount)
      ensures reply.Some? ==> selectedPlayer == reply && selectedPlayer.value.isBiddingRunning
                              && bids == reply.value.bids
      ensures reply.None? ==> selectedPlayer == old(selectedPlayer) && bids == old(bids)
    {
      if reply.Some? {
        assert reply.value.id in RunningIds(t);
        selectedPlayer := reply;
        bids := reply.value.bids;
      }
    }

    /**
     * The bid handler for increment `bidAmount`, on behalf of `user`;
     * `fetchFails` is whether the buyer query reports an error and `writeOk`
     * whether the history write to `players_bid` goes through (its error is not
     * checked). The outcome is `DecideBid`'s; only an accepted bid appends its
     * message and resets the countdown; `winningAmount` is set as soon as the
     * buyer is found, so a bid rejected for the balance still sets it.
     */
    method HandleBidding(t: Tables, user: Option<UserId>, bidAmount: int, fetchFails: bool, writeOk: bool)
      returns (outcome: BidOutcome, t': Tables)
      requires Valid()
      modifies this
      ensures Valid()
      ensures outcome == DecideBid(bidAmount, old(bids), selectedPlayer, FetchBuyer(t, user, fetchFails))
      ensures selectedPlayer == old(selectedPlayer) && winner == old(winner)
      ensures outcome.Accepted? ==> bids == old(bids) + [outcome.message] && timer == BidWindow
      ensures !outcome.Accepted? ==> bids == old(bids) && timer == old(timer)
      ensures winningAmount == if outcome.InsufficientBalance? || outcome.Accepted? then bidAmount else old(winningAmount)
      ensures t'.players == t.players && t'.buyers == t.buyers
      ensures t'.playersBid == if outcome.Accepted? then WriteBids(t.playersBid, selectedPlayer.value.id, bids, writeOk)
                               else t.playersBid
      ensures outcome.Accepted? && IncreasingLedger(old(bids)) ==> IncreasingLedger(bids)
    {
      t' := t;
      if bidAmount <= 0 {
        outcome := InvalidAmount;
        return;
      }
      var high := PreviousHigh(bids);
      if high == NoField {
        outcome := Crashed;
        return;
      }
      if selectedPlayer.None? {
        outcome := NoAuction;
        return;
      }
      var player := selectedPlayer.value;
      var total := player.basePrice + bidAmount;
      if high.Number? && total <= high.value {
        outcome := TooLow(high.value);
        return;
      }
      var buyer := FetchBuyer(t, user, fetchFails);
      if buyer.None? {
        outcome := BuyerLookupFailed;
        return;
      }
      winningAmount := bidAmount;
      if buyer.value.balance < total {
        outcome := InsufficientBalance(buyer.value.balance, total);
        return;
      }
      if IncreasingLedger(bids) && bids != [] {
        LastIsHighest(bids, 0);
      }
      var message;
      message, t' := PlaceBid(t, player.id, total, buyer.value.name, writeOk);
      outcome := Accepted(total, message);
    }

    /**
     * The accepted path of the bid handler: the message is appended, the
     * history is written to the player's `players_bid` row, and the countdown
     * starts again. A total that is positive and above the previous high keeps
     * a well-formed history well formed.
     */
    method PlaceBid(t: Tables, id: PlayerId, total: int, name: string, writeOk: bool)
      returns (message: string, t': Tables)
      requires Valid()
      modifies this
      ensures Valid()
      ensures message == FormatBid(total, name)
      ensures bids == old(bids) + [message] && timer == BidWindow
      ensures selectedPlayer == old(selectedPlayer) && winner == old(winner) && winningAmount == old(winningAmount)
      ensures t' == t.(playersBid := WriteBids(t.playersBid, id, bids, writeOk))
      ensures IncreasingLedger(old(bids)) && total > 0
              && PreviousHigh(old(bids)).Number? && PreviousHigh(old(bids)).value < total
              ==> IncreasingLedger(bids)
    {
      message := FormatBid(total, name);
      var updated := bids + [message];
      t' := t.(playersBid := WriteBids(t.playersBid, id, updated, writeOk));
      if IncreasingLedger(bids) && total > 0 && PreviousHigh(bids).Number? && PreviousHigh(bids).value < total {
        AppendKeepsLedgerIncreasing(bids, total, name);
      }
      bids := updated;
      timer := BidWindow;
    }

    /**
     * Declaring the winner for user `user`; `fetchFails` is whether the buyer
     * query reports an error and `w` which writes go through. Nothing happens
     * without a player or without a bid. The room's history and countdown are
     * left as they are.
     */
    method DeclareWinner(t: Tables, user: Option<UserId>, fetchFails: bool, w: Writes)
      returns (outcome: Settlement, t': Tables)
      modifies this
      ensures outcome == DeclareDecision(old(selectedPlayer), old(bids), FetchBuyer(t, user, fetchFails))
      ensures selectedPlayer == old(selectedPlayer) && bids == old(bids)
      ensures timer == old(timer) && winningAmount == old(winningAmount)
      ensures outcome.Declared? ==>
                && user.Some? && outcome.buyer == t.buyers[user.value]
                && winner == Some(outcome.buyer)
                && t' == Settle(t, outcome.buyer, user.value, selectedPlayer.value, winningAmount, w)
      ensures !outcome.Declared? ==> winner == old(winner) && t' == t
    {
      t' := t;
      outcome := DeclareDecision(selectedPlayer, bids, FetchBuyer(t, user, fetchFails));
      if selectedPlayer.None? || bids == [] {
        return;
      }
      var buyer := FetchBuyer(t, user, fetchFails);
      if buyer.None? {
        return;
      }
      t' := Settle(t, buyer.value, user.value, selectedPlayer.value, winningAmount, w);
      winner := buyer;
    }

    /**
     * One run of the countdown effect: while the countdown is positive one
     * tick takes one off it; at zero with a bid recorded the winner is declared;
     * otherwise nothing happens.
     */
    method TimerEffect(t: Tables, user: Option<UserId>, fetchFails: bool, w: Writes)
      returns (outcome: Settlement, t': Tables)
      requires Valid()
      modifies this
      ensures Valid()
      ensures selectedPlayer == old(selectedPlayer) && bids == old(bids) && winningAmount == old(winningAmount)
      ensures old(timer) > 0 ==> timer == old(timer) - 1 && outcome == NothingToSettle && t' == t && winner == old(winner)
      ensures old(timer) == 0 ==> timer == 0
      ensures old(timer) == 0 && bids != [] ==> outcome == DeclareDecision(selectedPlayer, bids, FetchBuyer(t, user, fetchFails))
      ensures old(timer) == 0 && bids == [] ==> outcome == NothingToSettle && t' == t && winner == old(winner)
      ensures outcome.Declared? ==>
                && old(timer) == 0 && bids != [] && selectedPlayer.Some? && user.Some?
                && winner == Some(outcome.buyer)
                && t' == Settle(t, outcome.buyer, user.value, selectedPlayer.value, winningAmount, w)
      ensures !outcome.Declared? ==> winner == old(winner) && t' == t
    {
      if timer > 0 {
        timer := timer - 1;
        outcome, t' := NothingToSettle, t;
      } else if bids != [] {
        outcome, t' := DeclareWinner(t, user, fetchFails, w);
      } else {
        outcome, t' := NothingToSettle, t;
      }
    }
  }
}
