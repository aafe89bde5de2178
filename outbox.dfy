/**
 * The administrator's chat, seen as an outbox of notifications, and the
 * shape of what one availability check produces.
 *
 * Every notification the checkers send is one `Msg`; the exception text that
 * some of them interpolate (`{e}`) is not modelled.
 */
module Outbox {
  import opened Http

  datatype Msg =
    | Available(count: Option<int>, price: real)  // "Доступно {count} номеров по цене {price}"
    | NoNumbers                                    // "Нет доступных номеров"
    | CannotParse(text: string)                    // "Невозможно обработать ответ: {text}"
    | NoConnection                                 // "Нет соединения с API"
    | TimedOut                                     // "Время ожидания истекло"
    | RequestFailed                                // "Ошибка запроса: {e}"
    | DataFailed                                   // "Ошибка обработки данных: {e}"
    | Unexpected                                   // "Неожиданная ошибка: {e}"
    | Failed                                       // "Ошибка: {e}"
    | Balance(text: string)                        // the whole "Баланс: ..." line

  /** The messages that translate a caught exception. */
  predicate IsError(m: Msg) {
    m.NoConnection? || m.TimedOut? || m.RequestFailed? || m.DataFailed? || m.Unexpected? || m.Failed?
  }

  /** How a call to `get_numbers` ends: it returns a boolean, or an exception escapes it. */
  datatype Exit = Returned(found: bool) | Raised

  /** What one call to `get_numbers` does: how it ends and what it sends, in order. */
  datatype Report = Report(exit: Exit, sent: seq<Msg>)

  /** The error path shared by the checkers: the error message, then the "no numbers" fallback. */
  function Fallback(err: Msg): Report {
    Report(Returned(false), [err, NoNumbers])
  }

  /** The administrator's chat: everything sent to it, oldest first. */
  class Chat {
    var sent: seq<Msg>

    constructor ()
      ensures sent == []
    {
      sent := [];
    }

    /** Delivers one message to the administrator. */
    method Send(m: Msg)
      modifies this
      ensures sent == old(sent) + [m]
    {
      sent := sent + [m];
    }
  }
}
