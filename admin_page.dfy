/**
 * The operator's page (app/admin/page.tsx): the list of players, a button per
 * player that starts its bidding, and the label and enabled state of that
 * button.
 */
module AdminPage {
  import opened Wrappers
  import opened Tables

  /** The list after `startBidding` for `id`: the players with that id are marked running. */
  function MarkRunning(players: seq<Player>, id: PlayerId): (r: seq<Player>)
    ensures |r| == |players|
    ensures forall i :: 0 <= i < |players| && players[i].id == id ==>
              r[i] == players[i].(isBiddingRunning := true)
    ensures forall i :: 0 <= i < |players| && players[i].id != id ==> r[i] == players[i]
  {
    if players == [] then []
    else
      var head := if players[0].id == id then players[0].(isBiddingRunning := true) else players[0];
      [head] + MarkRunning(players[1..], id)
  }

  /** Starting the bidding twice for the same player gives the same list as once. */
  lemma MarkRunningIdempotent(players: seq<Player>, id: PlayerId)
    ensures MarkRunning(MarkRunning(players, id), id) == MarkRunning(players, id)
  {
  }

  /** The players that start out running or with another id are not touched, and the ids keep their places. */
  lemma MarkRunningKeepsIds(players: seq<Player>, id: PlayerId)
    ensures forall i :: 0 <= i < |players| ==>
              MarkRunning(players, id)[i].id == players[i].id
              && MarkRunning(players, id)[i].sold == players[i].sold
              && (MarkRunning(players, id)[i].isBiddingRunning <==> players[i].isBiddingRunning || players[i].id == id)
  {
  }

  /**
   * Starting one player's bidding does not stop another's: after starting `a`
   * and then `b`, both are marked running. Nothing on this page keeps the
   * running player unique.
   */
  lemma StartingTwoKeepsBothRunning(players: seq<Player>, a: PlayerId, b: PlayerId)
    ensures var r := MarkRunning(MarkRunning(players, a), b);
            forall i :: 0 <= i < |players| && (players[i].id == a || players[i].id == b) ==> r[i].isBiddingRunning
  {
  }

  /** The store write: `players.update({ isBiddingRunning: true }).eq("id", id)`. */
  function SetRunning(t: Tables, id: PlayerId, ok: bool): (r: Tables)
    ensures r.buyers == t.buyers && r.playersBid == t.playersBid
    ensures r.players.Keys == t.players.Keys
    ensures forall k :: k in t.players && k != id ==> r.players[k] == t.players[k]
    ensures id in t.players ==> r.players[id] == if ok then t.players[id].(isBiddingRunning := true) else t.players[id]
    ensures !ok ==> r == t
  {
    if ok && id in t.players then t.(players := t.players[id := t.players[id].(isBiddingRunning := true)]) else t
  }

  /** The button is disabled for a sold player and for one whose bidding is running. */
  predicate ButtonDisabled(p: Player) {
    p.sold || p.isBiddingRunning
  }

  /** Whether the button gets the yellow, clickable styling. */
  predicate EnabledStyling(p: Player)
    ensures EnabledStyling(p) <==> !ButtonDisabled(p)
  {
    !p.sold && !p.isBiddingRunning
  }

  /** The button is disabled exactly when its label is not "Start Bidding". */
  lemma DisabledUnlessStartable(p: Player)
    ensures ButtonDisabled(p) <==> ButtonLabel(p) != "Start Bidding"
    ensures ButtonDisabled(p) <==> ButtonLabel(p) == "SOLD" || ButtonLabel(p) == "Bidding in Progress"
  {
  }

  /** The button's label. */
  function ButtonLabel(p: Player): (text: string)
    ensures text == "SOLD" <==> p.sold
    ensures text == "Bidding in Progress" <==> !p.sold && p.isBiddingRunning
    ensures text == "Start Bidding" <==> !ButtonDisabled(p)
  {
    if p.sold then "SOLD" else if p.isBiddingRunning then "Bidding in Progress" else "Start Bidding"
  }

  class AdminPage {
    var players: seq<Player>

    constructor ()
      ensures players == []
    {
      players := [];
    }

    /**
     * Loading the list: `reply` is the rows of `players` the query returned, or
     * None when it reported an error, in which case the list is left as it was.
     */
    method LoadPlayers(reply: Option<seq<Player>>)
      modifies this
      ensures reply.Some? ==> players == reply.value
      ensures reply.None? ==> players == old(players)
    {
      if reply.Some? {
        players := reply.value;
      }
    }

    /**
     * Starting the bidding of `player`: the store write is attempted first;
     * when it reports an error (`fails`) the local list is left as it was,
     * otherwise the local list marks every entry with that id as running.
     */
    method StartBidding(t: Tables, player: Player, fails: bool) returns (t': Tables)
      modifies this
      ensures t' == SetRunning(t, player.id, !fails)
      ensures fails ==> players == old(players)
      ensures !fails ==> players == MarkRunning(old(players), player.id)
      ensures |players| == |old(players)|
    {
      t' := SetRunning(t, player.id, !fails);
      if fails {
        return;
      }
      players := MarkRunning(players, player.id);
    }
  }
}
