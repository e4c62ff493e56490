/** The audit-log record and its five-argument constructor (models/Log.java). */
module LogModel {
  import opened Common

  /** One quantity change. `quantity` is the amount the caller asked for. */
  datatype Log = Log(
    id: Option<Id>,
    userId: Id,
    itemId: Id,
    action: string,
    quantity: int,
    description: string,
    date: Time)

  /** The only two actions the services ever record. */
  const IncreaseAction: string := "Increase Quantity"
  const DecreaseAction: string := "Decrease Quantity"

  /** `new Log(userId, itemId, action, quantity, description)` at time `now`. */
  function NewLog(userId: Id, itemId: Id, action: string, quantity: int,
                  description: string, now: Time): (l: Log)
    ensures l.id == None && l.date == now
    ensures l.userId == userId && l.itemId == itemId && l.action == action
    ensures l.quantity == quantity && l.description == description
  {
    Log(None, userId, itemId, action, quantity, description, now)
  }

  /** Every entry carries one of the two actions the services produce. */
  ghost predicate KnownActions(logs: seq<Log>) {
    forall i :: 0 <= i < |logs| ==> logs[i].action in {IncreaseAction, DecreaseAction}
  }

  /** The signed change an entry announces, as a replay of the log would apply it. */
  function LoggedDelta(l: Log): int {
    if l.action == IncreaseAction then l.quantity
    else if l.action == DecreaseAction then -l.quantity
    else 0
  }
}
