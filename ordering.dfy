/** The order page's submit handler: a blank transcript is refused, any
    other one becomes a new pending order whose items are parsed from it. */
module OrderSubmit {
  import opened Types
  import opened Transcript

  /** The smallest and largest total `Math.floor(Math.random() * 20) + 5`
      can produce. */
  const MinTotal: int := 5
  const MaxTotal: int := 24

  /** The order created when `transcript` is submitted while `language` is
      selected, or None when the handler returns early on a blank transcript.
      `id` stands for the random identifier and `roll` for
      `Math.floor(Math.random() * 20)`, which is a whole number below 20. */
  function BuildOrder(transcript: string, language: Language, id: string, roll: nat): (r: Option<Order>)
    requires roll < 20
    ensures r.None? <==> AllWhitespace(transcript)
    ensures r.Some? ==>
      && r.value.items == ParseItems(transcript)
      && r.value.status == Pending
      && r.value.language == language
      && r.value.id == id
      && r.value.total == roll + MinTotal
      && MinTotal <= r.value.total <= MaxTotal
  {
    BlankIffAllWhitespace(transcript);
    if Trim(transcript) == [] then None
    else Some(Order(id, ParseItems(transcript), roll + MinTotal, Pending, language))
  }
}
