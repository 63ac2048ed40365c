/**
 * The form that adds a player (app/new-player/page.tsx): its initial values,
 * the rules its validation schema applies to them, and the payload it builds
 * on submission.
 */
module NewPlayerForm {
  import opened Wrappers

  /**
   * The form's `sold` value: the boolean it starts with, or the text of the
   * radio button that was clicked ("true" or "false"): a radio input hands the
   * form its `value` attribute, which is a string.
   */
  datatype SoldValue = Flag(b: bool) | Text(s: string)

  /** The form values; a numeric field is None while its input is blank. */
  datatype FormValues = FormValues(
    name: string,
    imageUrl: string,
    basePrice: Option<int>,
    battingRating: Option<int>,
    bowlingRating: Option<int>,
    status: string,
    sold: SoldValue)

  /** The statuses the schema accepts. */
  const Statuses: seq<string> := ["Batsman", "Bowler", "All-Rounder", "Captain"]

  /** The lowest base price the schema accepts; the bound itself is accepted. */
  const MinBasePrice: int := 1000

  const InitialValues: FormValues := FormValues("", "", None, None, None, "Batsman", Flag(false))

  /** A required string: present and not empty. */
  predicate RequiredText(s: string) {
    s != []
  }

  predicate BasePriceValid(price: Option<int>) {
    price.Some? && price.value >= MinBasePrice
  }

  predicate RatingValid(rating: Option<int>) {
    rating.Some? && 0 <= rating.value <= 100
  }

  predicate StatusValid(status: string) {
    status in Statuses
  }

  /** The validation schema; `sold` has no rule. */
  predicate Valid(v: FormValues) {
    && RequiredText(v.name)
    && RequiredText(v.imageUrl)
    && BasePriceValid(v.basePrice)
    && RatingValid(v.battingRating)
    && RatingValid(v.bowlingRating)
    && StatusValid(v.status)
  }

  /** The schema accepts a base price exactly from 1000 up: 1000 itself passes, 999 does not. */
  lemma BasePriceBoundInclusive()
    ensures BasePriceValid(Some(1000)) && !BasePriceValid(Some(999)) && !BasePriceValid(None)
  {
  }

  /** Both ratings accept exactly 0 through 100, bounds included; a blank rating is rejected. */
  lemma RatingBoundsInclusive(r: int)
    ensures RatingValid(Some(r)) <==> 0 <= r <= 100
    ensures RatingValid(Some(0)) && RatingValid(Some(100))
    ensures !RatingValid(Some(-1)) && !RatingValid(Some(101)) && !RatingValid(None)
  {
  }

  /** The status must be one of the four names exactly as written: case and spelling matter. */
  lemma StatusIsExact(status: string)
    ensures StatusValid(status) <==>
      status == "Batsman" || status == "Bowler" || status == "All-Rounder" || status == "Captain"
    ensures !StatusValid("batsman") && !StatusValid("All Rounder") && !StatusValid("")
  {
  }

  /**
   * The whole schema spelled out: a form passes exactly when name and image
   * URL are non-empty, the base price is present and at least 1000, both
   * ratings are present and within 0..100, and the status is one of the four.
   */
  lemma SchemaRules(v: FormValues)
    ensures Valid(v) <==>
      && v.name != "" && v.imageUrl != ""
      && v.basePrice.Some? && v.basePrice.value >= 1000
      && v.battingRating.Some? && 0 <= v.battingRating.value <= 100
      && v.bowlingRating.Some? && 0 <= v.bowlingRating.value <= 100
      && (v.status == "Batsman" || v.status == "Bowler" || v.status == "All-Rounder" || v.status == "Captain")
  {
  }

  /** `sold` never decides validity. */
  lemma SoldIsUnchecked(v: FormValues, sold: SoldValue)
    ensures Valid(v) <==> Valid(v.(sold := sold))
  {
  }

  /** The initial status is valid and `sold` starts false, but the blank required fields make the form invalid. */
  lemma InitialValuesInvalid()
    ensures StatusValid(InitialValues.status) && InitialValues.sold == Flag(false)
    ensures !Valid(InitialValues)
  {
  }

  /** What is submitted. */
  datatype PlayerData = PlayerData(
    name: string,
    imageUrl: string,
    basePrice: Option<int>,
    battingRating: Option<int>,
    bowlingRating: Option<int>,
    status: string,
    sold: bool)

  /** `Boolean(x)`: a boolean is itself, a string is true unless it is empty. */
  function Truthy(v: SoldValue): bool {
    match v
    case Flag(b) => b
    case Text(s) => s != ""
  }

  /** The payload as written: every form value copied, `sold` passed through `Boolean(...)`. */
  function Payload(v: FormValues): (d: PlayerData)
    ensures d.name == v.name && d.imageUrl == v.imageUrl && d.basePrice == v.basePrice
    ensures d.battingRating == v.battingRating && d.bowlingRating == v.bowlingRating
    ensures d.status == v.status
    ensures v.sold.Flag? ==> d.sold == v.sold.b
  {
    PlayerData(v.name, v.imageUrl, v.basePrice, v.battingRating, v.bowlingRating, v.status, Truthy(v.sold))
  }

  /** Clicking the "No" radio button stores the text "false", and the payload then says the player is sold. */
  lemma NoRadioSubmitsSold(v: FormValues)
    requires v.sold == Text("false")
    ensures Payload(v).sold
  {
  }

  /** The value of `sold` the form's two radio buttons mean: true only for the boolean true or the text "true". */
  function IntendedSold(v: SoldValue): bool {
    match v
    case Flag(b) => b
    case Text(s) => s == "true"
  }

  /** The payload with `sold` read as the radio buttons mean it. */
  function IntendedPayload(v: FormValues): (d: PlayerData)
    ensures d.name == v.name && d.imageUrl == v.imageUrl && d.basePrice == v.basePrice
    ensures d.battingRating == v.battingRating && d.bowlingRating == v.bowlingRating
    ensures d.status == v.status
    ensures d.sold <==> v.sold == Flag(true) || v.sold == Text("true")
  {
    PlayerData(v.name, v.imageUrl, v.basePrice, v.battingRating, v.bowlingRating, v.status, IntendedSold(v.sold))
  }

  /** The two payloads differ only for a clicked "No" (or any other non-empty text but "true"). */
  lemma PayloadsAgreeExceptOnText(v: FormValues)
    ensures Payload(v) == IntendedPayload(v) <==> !(v.sold.Text? && v.sold.s != "" && v.sold.s != "true")
  {
  }
}
