/** Vocabulary shared by every part of the model: Java's nullable references,
    the outcome of one statement sent to the store, database-clock values,
    the button row both editing screens have, and the message lines their
    form checks report. */
module Common {

  /** A Java reference that may be `null` (`None`). */
  datatype Option<+T> = None | Some(value: T) {

    /** The wrapped value, or `default` when absent. */
    function GetOr(default: T): T {
      match this
      case Some(v) => v
      case None => default
    }
  }

  /** What the store did with one statement: it completed, or the driver
      raised an SQLException (no connection, constraint violation, lost link).
      The repositories catch every SQLException, so the caller only ever sees
      a boolean, an absent record or an empty list. */
  datatype Reply = Completed | Raised

  /** A value of the store's clock (`created_at`, `registration_date`); only
      its identity matters here. */
  datatype Timestamp = Timestamp(ticks: int)

  /** Which of a screen's add, update and delete buttons are enabled. */
  datatype Buttons = Buttons(add: bool, update: bool, delete: bool)

  /** Nothing selected: only add is enabled. */
  const ForNew: Buttons := Buttons(true, false, false)

  /** A record selected: update and delete replace add. */
  const ForSelected: Buttons := Buttons(false, true, true)

  /** The outcome of a screen's writing statement, and of the reads that
      refresh the screen after it. */
  datatype Outcomes = Outcomes(write: Reply, refresh: Reply)

  /** One message line if the check failed, none otherwise. */
  function When<E>(failed: bool, e: E): (r: seq<E>)
    ensures e in r <==> failed
    ensures r == [] <==> !failed
    ensures r == [] || r == [e]
  {
    if failed then [e] else []
  }
}
