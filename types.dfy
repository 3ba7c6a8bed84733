/** Value types shared by the kiosk's components: the selectable languages,
    the three order statuses, the six screens and the order record. */
module Types {

  /** Conventional Some/None, standing for a value that may be null. */
  datatype Option<+T> = None | Some(value: T)

  /** The three languages the kiosk offers. */
  datatype Language = En | Hi | Ko

  /** An order's status; the declaration order is the order of the status flow. */
  datatype Status = Pending | Preparing | Ready

  /** The six mutually exclusive screens of the kiosk. */
  datatype View =
    | LanguageScreen
    | HomeScreen
    | OrderScreen
    | ConfirmationScreen
    | TrackingScreen
    | ReadyScreen

  /** An order as the kiosk keeps it in memory. The creation timestamp is
      not modelled. */
  datatype Order = Order(
    id: string,
    items: seq<string>,
    total: int,
    status: Status,
    language: Language)

  /** Position of a status in the flow pending, preparing, ready. */
  function Rank(s: Status): (r: nat)
    ensures r < 3
    ensures s == Pending <==> r == 0
    ensures s == Ready <==> r == 2
  {
    match s
    case Pending => 0
    case Preparing => 1
    case Ready => 2
  }
}
