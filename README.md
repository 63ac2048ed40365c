# cricket-auction — a Dafny model of the auction core

A model of the cricket player auction's core. The core has five parts:

- the live auction room a buyer sees (`components/AuctionPage.tsx`). It loads the player whose
  bidding is running and keeps the bid history as display strings (`Bid: ₹{total} by {name}`).
  It accepts a bid when the bid beats the previous high, which it reads back out of the last
  string, and when the buyer's balance covers it. A 15-tick countdown restarts on every accepted
  bid. When the countdown reaches zero with a bid recorded, the room settles the sale: it debits
  the buyer, adds the player to the buyer's team list, marks the player sold and closes its bid row;
- the operator's page (`app/admin/page.tsx`). It lists the players and starts a player's bidding.
  The per-player button shows "SOLD", "Bidding in Progress" or "Start Bidding";
- the new-player form (`app/new-player/page.tsx`): its initial values, its validation schema and
  the payload it submits;
- the request guard (`middleware.ts`). It decides which paths it runs on. On a protected path it
  sends a visitor without a session to sign-in and a super-admin to the admin page;
- the deposit form (`components/BalanceForm.tsx`): its schema, and the upsert that sets the
  signed-in buyer's name and balance.

Layout, one module per file:

- `wrappers.dfy`: `Option`.
- `tables.dfy`: the backend rows (`Player`, `Buyer`, `BidRow`) and the three tables as maps.
  Each operation receives the tables as a value and returns them; a failed store call is a
  boolean parameter.
- `bid_text.dfy`: the JavaScript string operations the bid history relies on. These are `split`,
  `replace`, `parseInt` and the rendering of an integer in a template string. The module proves
  that reading a formatted bid message gives its total back.
- `auction_room.dfy`: the room's state as a class. The pure functions `DecideBid`, `Settle` and
  `DeclareDecision` are the specifications its methods are proved against.
- `admin_page.dfy`, `new_player_form.dfy`, `route_guard.dfy`, `deposit_form.dfy`: the other four
  parts.

In a few places the code behaves differently from what its own messages, labels and comments lead
a reader to expect. The model follows the code, and states each such point as a contract or a
lemma:

- the buyer who wins is the current user's row, looked up by the signed-in user's id. It is not
  the bidder named in the last message (`DeclareDecision`);
- `winningAmount` is set as soon as the buyer row is found, before the balance check. So a bid
  rejected for lack of balance still sets the amount a later settlement charges (`HandleBidding`);
- starting one player's bidding does not stop another's (`StartingTwoKeepsBothRunning`). The
  room's load then gets an error from its single-row query and shows nothing (`LoadPlayer`);
- the room loads its history from the player row but writes it to the `players_bid` row;
- the guard's redirects for a request without a session, built before the protected-path test,
  are never returned and have no effect;
- a successful deposit does not clear an earlier error message (`StaleErrorAfterSuccess`).

## Model

| member | source | states |
|---|---|---|
| BidText.NatToString | components/AuctionPage.tsx:173 | the text written for a natural number is all decimal digits, is one digit exactly for numbers below 10, and has no leading zero otherwise |
| BidText.NatToStringRoundTrip | components/AuctionPage.tsx:173 | the decimal digits written for a natural number have that number as their value |
| BidText.IntToString | components/AuctionPage.tsx:173 | `${n}` is non-empty, starts with '-' exactly for negative n, and holds only digits after an optional leading minus; so it holds no space, colon or rupee sign |
| BidText.LeadingDigits | components/AuctionPage.tsx:143-145 | the digit run parseInt reads is a prefix of the text, all digits, and stops at the first non-digit |
| BidText.ParseInt | components/AuctionPage.tsx:143-145 | parseInt gives NaN exactly for empty text or text that starts with neither a digit nor a sign followed by a digit; after a minus sign the value is at most 0, otherwise at least 0; text made only of digits gives its decimal value |
| BidText.ParseIntRoundTrip | components/AuctionPage.tsx:143-145 | parseInt gives back every integer that a template string writes |
| BidText.TakeUntil | components/AuctionPage.tsx:144 | element 0 of split(sep) is a prefix of the text and is followed by sep unless it is the whole text |
| BidText.TakeUntilStopsAtFirst | components/AuctionPage.tsx:144 | split cuts at the first occurrence: sep starts nowhere inside element 0 |
| BidText.AfterNoneIff | components/AuctionPage.tsx:144 | element 1 of split(sep) is missing exactly when sep starts at no position of the text |
| BidText.AfterSplits | components/AuctionPage.tsx:144 | the text is element 0, then sep, then the rest; when sep does not occur, element 0 is the whole text |
| BidText.FirstIndex | components/AuctionPage.tsx:144 | the position found holds the character, and no earlier position does |
| BidText.ReplaceFirst | components/AuctionPage.tsx:144 | replace with a one-character pattern that does not occur leaves the text unchanged |
| BidText.ReplaceFirstRemovesFirst | components/AuctionPage.tsx:144 | when the character occurs, replace removes it at its first occurrence only and keeps everything before and after it |
| BidText.FormatBid | components/AuctionPage.tsx:173 | the message starts with "Bid: ₹", and the field after its first ": " is "₹", the total's digits, " by " and the buyer's name up to the name's own first ": " |
| BidText.NoFieldIffNoSeparator | components/AuctionPage.tsx:141-146 | reading an amount out of a message fails on an undefined field exactly when the message contains no ": " |
| BidText.BidMessageRoundTrip | components/AuctionPage.tsx:141-146 | for every total and every buyer name, parsing the message `Bid: ₹{total} by {name}` (line 173) gives back the total |
| Tables.FetchBuyer | components/AuctionPage.tsx:157-163 | the buyer query returns a row exactly when it does not fail and the signed-in user has a row, and then it returns that row |
| AuctionRoom.PreviousHigh | components/AuctionPage.tsx:141-146 | the previous high is 0 for an empty history and otherwise whatever the last message parses to |
| AuctionRoom.PreviousHighReadsLastOnly | components/AuctionPage.tsx:141-146 | the messages before the last one make no difference to the previous high |
| AuctionRoom.PreviousHighIsNotTheMaximum | components/AuctionPage.tsx:141-150 | after a bid of 5000 and then one of 2000, the previous high is 2000: the handler compares with the last message, not the largest |
| AuctionRoom.PreviousHighAfterAppend | components/AuctionPage.tsx:141-146 | once a message is appended, the handler reads its total as the previous high |
| AuctionRoom.DecideBid | components/AuctionPage.tsx:135-173 | a zero or negative increment is rejected, and only it; an accepted bid has a loaded player, a found buyer, a total equal to base price plus increment that the balance covers and that beats a numeric previous high, and the formatted message; a total not above a numeric previous high is rejected as too low; a previous high that parses to NaN lets an affordable bid through |
| AuctionRoom.DecideBidOutcomes | components/AuctionPage.tsx:135-173 | the exact condition of each outcome, both ways: the parse crashes exactly when the last message has no amount field; there is no auction exactly when no player is loaded; the bid is too low exactly when its total does not beat a numeric previous high; the buyer lookup fails, the balance falls short (with that balance and total) or the bid is accepted exactly when the total clears the previous high and the buyer is missing, cannot cover the total, or can |
| AuctionRoom.LastIsHighest | components/AuctionPage.tsx:141-150 | in a history with strictly increasing totals, the last message holds the largest total |
| AuctionRoom.BidAcceptedIff | components/AuctionPage.tsx:135-173 | on such a history, with the player loaded and the buyer found, a bid is accepted exactly when its increment is positive, its total is above every recorded total, and the balance covers it |
| AuctionRoom.AppendKeepsLedgerIncreasing | components/AuctionPage.tsx:173-174 | appending a message with a positive total above the previous high keeps the totals positive and strictly increasing |
| AuctionRoom.AcceptedKeepsLedgerIncreasing | components/AuctionPage.tsx:135-181 | every accepted bid keeps a well-formed history well formed |
| AuctionRoom.WriteBids | components/AuctionPage.tsx:176-179 | when the history write goes through, that row's bids become the new history and its other columns and every other row are kept; a failed write leaves the table as it was |
| AuctionRoom.Settle | components/AuctionPage.tsx:95-122 | settlement keeps every table's keys and touches only the winner's buyer row, the player's row and the player's bid row; each write that goes through sets that row to its new value with the other columns kept (balance less winning amount and base price with the player appended; sold, not running, owned by the winner; buyer, empty history and total); a failed write, or a player already in the team list for the buyer write, leaves that table as it was |
| AuctionRoom.SettlementEffects | components/AuctionPage.tsx:95-122 | after a settlement whose writes all go through, the player is in the winner's team list, the balance drops by the winning amount plus base price (only if the player was not yet listed), the player is sold, not running and owned by the winner, and the bid row is closed with the total and an empty history |
| AuctionRoom.SettlementIdempotent | components/AuctionPage.tsx:98-105 | a second settlement of the same player for the same user changes nothing: no duplicate membership, no second debit |
| AuctionRoom.SettlementKeepsTeamListDistinct | components/AuctionPage.tsx:98-105 | a team list without duplicates keeps none after any settlement |
| AuctionRoom.DeclareDecision | components/AuctionPage.tsx:78-93 | a winner is declared exactly when a player is loaded, a bid is recorded and the current user's buyer row is found, and that row is the winner; nothing happens without a player or a bid |
| AuctionRoom.AuctionRoom.constructor | components/AuctionPage.tsx:26-32 | no player, countdown at 15, empty history, no winner, winning amount 0 |
| AuctionRoom.AuctionRoom.LoadPlayer | components/AuctionPage.tsx:36-65 | when exactly one row is running, that player and its bids are shown; on an error nothing changes |
| AuctionRoom.AuctionRoom.PlaceBid | components/AuctionPage.tsx:173-182 | the formatted message is appended to the history, the countdown restarts at 15, the bid row is written with the new history, nothing else changes, and a total above a numeric previous high keeps an increasing history increasing |
| AuctionRoom.AuctionRoom.HandleBidding | components/AuctionPage.tsx:135-190 | the outcome is DecideBid's; only an accepted bid appends its message, writes the history and resets the countdown to 15; the winning amount is set for an accepted bid and for a bid rejected for balance; an accepted bid keeps the history well formed |
| AuctionRoom.AuctionRoom.DeclareWinner | components/AuctionPage.tsx:78-133 | the outcome is DeclareDecision's; a declared winner is the current user's buyer row, becomes the room's winner, and the tables become Settle's result; otherwise nothing changes |
| AuctionRoom.AuctionRoom.TimerEffect | components/AuctionPage.tsx:67-76 | a positive countdown drops by one and nothing else happens; at zero with a bid recorded the winner is declared; at zero without a bid nothing happens; the countdown stays within 0..15 |
| AdminPage.MarkRunning | app/admin/page.tsx:45-49 | the list keeps its length; entries with the started id are marked running and others are unchanged |
| AdminPage.MarkRunningIdempotent | app/admin/page.tsx:45-49 | starting the same player twice gives the same list as once |
| AdminPage.MarkRunningKeepsIds | app/admin/page.tsx:45-49 | ids and sold flags keep their places; an entry is running afterwards exactly when it was running or has the started id |
| AdminPage.StartingTwoKeepsBothRunning | app/admin/page.tsx:36-53 | starting a second player leaves the first one running |
| AdminPage.SetRunning | app/admin/page.tsx:38-41 | when the store write goes through, that player's row is marked running with its other columns kept; a failed write changes nothing; no other row or table is touched |
| AdminPage.DisabledUnlessStartable | app/admin/page.tsx:82-88 | the button is disabled exactly when its label is not "Start Bidding", that is when it reads "SOLD" or "Bidding in Progress" |
| AdminPage.EnabledStyling | app/admin/page.tsx:76-82 | the clickable styling is shown exactly when the button is enabled |
| AdminPage.ButtonLabel | app/admin/page.tsx:84-88 | "SOLD" exactly for a sold player, "Bidding in Progress" exactly for an unsold running one, "Start Bidding" exactly when the button is enabled |
| AdminPage.AdminPage.constructor | app/admin/page.tsx:19 | the list of players starts empty |
| AdminPage.AdminPage.LoadPlayers | app/admin/page.tsx:22-34 | the list becomes the fetched rows; on an error it is unchanged |
| AdminPage.AdminPage.StartBidding | app/admin/page.tsx:36-53 | the store write is SetRunning's; the local list is MarkRunning's result on success and is unchanged on an error |
| NewPlayerForm.BasePriceBoundInclusive | app/new-player/page.tsx:21-23 | a base price of exactly 1000 passes the schema; 999 and a blank field do not |
| NewPlayerForm.RatingBoundsInclusive | app/new-player/page.tsx:24-31 | a rating passes exactly from 0 through 100, both bounds included; -1, 101 and a blank rating do not |
| NewPlayerForm.StatusIsExact | app/new-player/page.tsx:32-37 | a status passes exactly when it is "Batsman", "Bowler", "All-Rounder" or "Captain" as written; "batsman" and "All Rounder" do not |
| NewPlayerForm.SchemaRules | app/new-player/page.tsx:18-38 | a form passes exactly when name and image URL are non-empty, the base price is at least 1000, both ratings lie in 0..100 and the status is one of the four |
| NewPlayerForm.SoldIsUnchecked | app/new-player/page.tsx:18-38 | the value of `sold` never changes whether the form is valid |
| NewPlayerForm.InitialValuesInvalid | app/new-player/page.tsx:9-16 | the initial status is an accepted one and `sold` starts false, but the blank initial form does not pass the schema |
| NewPlayerForm.Payload | app/new-player/page.tsx:39-45 | every form value is copied into the payload, and a boolean `sold` is kept as it is |
| NewPlayerForm.NoRadioSubmitsSold | app/new-player/page.tsx:42 | after the "No" radio button is clicked, the payload says the player is sold |
| NewPlayerForm.IntendedPayload | app/new-player/page.tsx:39-45 | the payload copies every value and says sold exactly for the boolean true or the text "true" |
| NewPlayerForm.PayloadsAgreeExceptOnText | app/new-player/page.tsx:42 | the payload as written and the intended one differ exactly for non-empty radio text other than "true" |
| RouteGuard.AnyPrefix | middleware.ts:22-24 | a path is matched by the route list exactly when some listed route is a prefix of it |
| RouteGuard.IsProtected | middleware.ts:11-24 | a path is protected exactly when it starts with "/onboarding" or "/profile" |
| RouteGuard.PrefixMatchIsTextual | middleware.ts:11-23 | "/profiles" and "/profile-old" are protected; "/", "/admin" and "/prof" are not |
| RouteGuard.Middleware | middleware.ts:5-36 | off the protected paths every request passes; on them, no session means a redirect to "/sign-in", the role "super-admin" means a redirect to "/admin", and any other session passes |
| RouteGuard.SessionIgnoredOffProtected | middleware.ts:14-20 | off the protected paths the session makes no difference, so the early redirects without a session have no effect |
| RouteGuard.AnyExtension | middleware.ts:47 | a path is excluded as an image exactly when it ends with "." and one of the listed extensions |
| RouteGuard.Route | middleware.ts:38-48 | a path the matcher excludes always passes; on any other path the guard decides |
| RouteGuard.ImageFilesPassThrough | middleware.ts:47 | every path ending in "." and one of the six image extensions passes, with any session |
| RouteGuard.InternalAssetsPassThrough | middleware.ts:47 | every path under "/_next/static" or "/_next/image" passes, with any session |
| RouteGuard.FaviconPassThrough | middleware.ts:47 | every path made of "/favicon", any one character, "ico" and anything after passes, with any session |
| RouteGuard.ProtectedRoute | middleware.ts:11-47 | a protected path is guarded exactly when it does not end in an image extension, and then the guard decides, so a request without a session goes to "/sign-in"; one that ends in an image extension passes |
| RouteGuard.ProtectedImageNotGuarded | middleware.ts:11-47 | an image under "/profile" is protected by prefix but is served without a session, because the matcher excludes it |
| DepositForm.DepositSchemaCases | components/BalanceForm.tsx:16-27 | the blank initial form is rejected; a name with an amount is accepted exactly when the name is non-empty and the amount positive; a blank amount is rejected |
| DepositForm.UpsertBuyer | components/BalanceForm.tsx:37-43 | the upsert adds the user's row if missing and touches no other row |
| DepositForm.DepositReplacesBalance | components/BalanceForm.tsx:37-43 | after the upsert the user's balance is the amount entered, not added to the old one; the name is set, and an existing team list is kept |
| DepositForm.DepositIdempotent | components/BalanceForm.tsx:37-43 | submitting the same values twice leaves the same buyers table as once |
| DepositForm.ErrorAfterSubmit | components/BalanceForm.tsx:29-56 | without a user the message is "User not authenticated."; a store error shows its message; a thrown error shows "An error occurred during submission."; a success leaves the earlier message |
| DepositForm.StaleErrorAfterSuccess | components/BalanceForm.tsx:44-49 | a failure followed by a success still shows the failure's message |
| DepositForm.BuyersAfterSubmit | components/BalanceForm.tsx:29-56 | the buyers table is written only for a signed-in user whose upsert succeeds, and then it is the upsert's result |
| DepositForm.SignedOutWritesNothing | components/BalanceForm.tsx:31-35 | without a signed-in user nothing is written and the not-authenticated message shows, whatever the store would do |
| DepositForm.BalanceForm.constructor | components/BalanceForm.tsx:10-11 | no error and not loading |
| DepositForm.BalanceForm.Submit | components/BalanceForm.tsx:29-56 | loading ends lowered; the error is ErrorAfterSubmit's; the tables are BuyersAfterSubmit's |

## Left out

- Time: one run of the countdown effect is one step (`TimerEffect`). The one-second interval, its clean-up and React's scheduling of effects are not modelled.
- Concurrency: the awaits inside the handlers are not modelled. Each handler runs to completion, and so does each client's independent countdown.
- Alerts, console logging, navigation and the rendered markup are not modelled. The exceptions are the admin button's label, enabled state and styling.
- The auction page's `loading` flag and its "Loading..." and "no player" screens are not modelled.
- BidText.ParseInt: does not model parseInt's skipping of leading white space or its "0x" prefix. Neither can occur in a message the room writes.
- BidText.IntToString: writes every integer in plain decimal. JavaScript's exponent form for numbers of 1e21 and above is not modelled.
- Amounts and prices are integers. Fractional increments, a NaN increment and floating-point rounding are not modelled. The same holds for the deposit amount, which the schema only requires to be positive.
- AuctionRoom.Settle: a `team_list` that is null in the store is read as an empty list. The buyer rows' other columns are not modelled.
- AuctionRoom.AuctionRoom.LoadPlayer: the store's reply is a parameter. Its requires states what the single-row query answers. A null `bids` column is shown as an empty history.
- The backend is Supabase. Its query semantics are reduced to map lookups and updates keyed by id. Row-level security, triggers and column defaults are not modelled. A new buyer row's team list is taken as empty.
- RouteGuard.Matched: `.` in the matcher's regular expression is taken to match any character. Its refusal to match a line break is not modelled. Next.js's compilation of the matcher string is not modelled either.
- The guard's session: only the role in the session's app metadata is modelled. Fetching the session is a parameter.
- NewPlayerForm: Yup's type coercion and error messages are not modelled. Numeric fields are integers or blank. The image upload component is not modelled. The payload is only logged by the source and is not sent anywhere.
- DepositForm.DepositValid: the amount is modelled as an integer. Formik's conversion of the number input is not modelled.
- The account page, team lists, navigation bar, sign-in and sign-up pages, authentication actions, image upload and the `useUser`/`useSupabase` hooks are not part of this model. The guard's session and the handlers' user are parameters instead.

## Findings

| source | as written | input that shows it | evidently intended | confidence | as-written member | corrected member |
|---|---|---|---|---|---|---|
| app/new-player/page.tsx:42 | `sold: Boolean(values.sold)`, where a clicked radio button (lines 197-218) stores its value as the text "false" | click "No" and submit: `Boolean("false")` is true | the "No" button submits `sold: false` | medium, not executed (relies on Formik storing a radio input's value as a string) | NewPlayerForm.NoRadioSubmitsSold | NewPlayerForm.IntendedPayload |
